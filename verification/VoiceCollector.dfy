/**
 The bounded accumulator of one response at a time. `Step` is one event, as a function of the
 whole state; the class does the same field by field.
 */
module VoiceCollector {
  import opened Wrappers
  import opened VoiceEvents
  import Utf8
  import Wav

  datatype Limits = Limits(sampleRate: nat, maxAudioBytes: int, maxTranscriptBytes: int, maxResponseEvents: int)

  predicate ValidLimits(limits: Limits) {
    && Wav.AllowedRate(limits.sampleRate)
    && 1024 <= limits.maxAudioBytes <= 512 * 1024 * 1024
    && 1024 <= limits.maxTranscriptBytes <= 16 * 1024 * 1024
    && 100 <= limits.maxResponseEvents <= 100_000
  }

  datatype Response = Response(
    responseId: string, transcript: string, pcmAudio: Bytes, sampleRate: nat,
    status: Option<string>, audioDoneSeen: bool, eventTypes: seq<string>)

  datatype State = State(
    responseId: Option<string>,
    transcriptParts: seq<string>,
    audioParts: seq<Bytes>,
    audioBytes: int,
    transcriptBytes: int,
    eventCount: int,
    audioDoneSeen: bool,
    eventTypes: seq<string>)

  const INITIAL := State(None, [], [], 0, 0, 0, false, [])

  function Join<T>(parts: seq<seq<T>>): seq<T> {
    if parts == [] then [] else Join(parts[..|parts| - 1]) + parts[|parts| - 1]
  }

  type Outcome = Result<Option<Response>, Problem>

  function Step(limits: Limits, s: State, event: Event): (State, Outcome) {
    if event.name.None? then (s, Err(BadType))
    else if s.eventCount + 1 > limits.maxResponseEvents then (s.(eventCount := s.eventCount + 1), Err(TooManyEvents))
    else
      Dispatch(limits, Counted(s, event.name.value), event)
  }

  function Counted(s: State, name: string): State {
    s.(eventCount := s.eventCount + 1, eventTypes := s.eventTypes + [name])
  }

  function Dispatch(limits: Limits, s: State, event: Event): (State, Outcome) {
    match event.kind
    case ResponseCreated => Created(s, event.response)
    case TextDelta => Text(limits, s, event.text)
    case AudioDelta => Audio(limits, s, event.chunk)
    case AudioDone => if s.responseId.None? then (s, Err(NotActive)) else (s.(audioDoneSeen := true), Ok(None))
    case ResponseDone => Done(limits, s, event.status)
    case _ => (s, Ok(None))
  }

  function Created(s: State, id: Result<string, Problem>): (State, Outcome) {
    if s.responseId.Some? then (s, Err(AlreadyActive))
    else if id.Err? then (s, Err(id.error))
    else (s.(responseId := Some(id.value)), Ok(None))
  }

  function Text(limits: Limits, s: State, text: Result<string, Problem>): (State, Outcome) {
    if text.Err? then (s, Err(text.error))
    else if s.responseId.None? then (s, Err(NotActive))
    else
      var size := s.transcriptBytes + Utf8.Size(text.value);
      if size > limits.maxTranscriptBytes then (s, Err(TooMuchText))
      else (s.(transcriptParts := s.transcriptParts + [text.value], transcriptBytes := size), Ok(None))
  }

  function Audio(limits: Limits, s: State, chunk: Result<Bytes, Problem>): (State, Outcome) {
    if s.responseId.None? then (s, Err(NotActive))
    else if chunk.Err? then (s, Err(chunk.error))
    else
      var size := s.audioBytes + |chunk.value|;
      if size > limits.maxAudioBytes then (s, Err(TooMuchAudio))
      else (s.(audioParts := s.audioParts + [chunk.value], audioBytes := size), Ok(None))
  }

  function Done(limits: Limits, s: State, status: Result<Option<string>, Problem>): (State, Outcome) {
    if s.responseId.None? then (s, Err(NotActive))
    else if status.Err? then (s, Err(status.error))
    else if |Join(s.audioParts)| % 2 != 0 then (s, Err(OddAudio))
    else
      (INITIAL, Ok(Some(Response(
        s.responseId.value, Join(s.transcriptParts), Join(s.audioParts), limits.sampleRate,
        status.value, s.audioDoneSeen, s.eventTypes))))
  }

  // ----- The collector -----

  class ResponseCollector {
    const limits: Limits
    var responseId: Option<string>
    var transcriptParts: seq<string>
    var audioParts: seq<Bytes>
    var audioBytes: int
    var transcriptBytes: int
    var eventCount: int
    var audioDoneSeen: bool
    var eventTypes: seq<string>

    ghost function View(): State
      reads this
    {
      State(responseId, transcriptParts, audioParts, audioBytes, transcriptBytes, eventCount, audioDoneSeen, eventTypes)
    }

    constructor (limits: Limits)
      requires ValidLimits(limits)
      ensures this.limits == limits && View() == INITIAL
    {
      this.limits := limits;
      responseId, audioDoneSeen := None, false;
      transcriptParts, audioParts, eventTypes := [], [], [];
      audioBytes, transcriptBytes, eventCount := 0, 0, 0;
    }

    /** One event: what is returned or raised, and the whole state after it, also after an error. */
    method Consume(event: Event) returns (outcome: Outcome)
      modifies this
      ensures (View(), outcome) == Step(limits, old(View()), event)
    {
      if event.name.None? {
        return Err(BadType);
      }
      eventCount := eventCount + 1;
      if eventCount > limits.maxResponseEvents {
        return Err(TooManyEvents);
      }
      eventTypes := eventTypes + [event.name.value];
      if event.kind == ResponseCreated {
        outcome := Open(event.response);
      } else if event.kind == TextDelta {
        outcome := AddText(event.text);
      } else if event.kind == AudioDelta {
        outcome := AddAudio(event.chunk);
      } else if event.kind == AudioDone {
        if responseId.None? {
          return Err(NotActive);
        }
        audioDoneSeen := true;
        outcome := Ok(None);
      } else if event.kind == ResponseDone {
        outcome := Complete(event.status);
      } else {
        outcome := Ok(None);
      }
    }

    method Open(id: Result<string, Problem>) returns (outcome: Outcome)
      modifies this
      ensures (View(), outcome) == Created(old(View()), id)
    {
      if responseId.Some? {
        return Err(AlreadyActive);
      }
      if id.Err? {
        return Err(id.error);
      }
      responseId := Some(id.value);
      return Ok(None);
    }

    method AddText(text: Result<string, Problem>) returns (outcome: Outcome)
      modifies this
      ensures (View(), outcome) == Text(limits, old(View()), text)
    {
      if text.Err? {
        return Err(text.error);
      }
      if responseId.None? {
        return Err(NotActive);
      }
      var size := transcriptBytes + Utf8.Size(text.value);
      if size > limits.maxTranscriptBytes {
        return Err(TooMuchText);
      }
      transcriptParts := transcriptParts + [text.value];
      transcriptBytes := size;
      return Ok(None);
    }

    method AddAudio(chunk: Result<Bytes, Problem>) returns (outcome: Outcome)
      modifies this
      ensures (View(), outcome) == Audio(limits, old(View()), chunk)
    {
      if responseId.None? {
        return Err(NotActive);
      }
      if chunk.Err? {
        return Err(chunk.error);
      }
      var size := audioBytes + |chunk.value|;
      if size > limits.maxAudioBytes {
        return Err(TooMuchAudio);
      }
      audioParts := audioParts + [chunk.value];
      audioBytes := size;
      return Ok(None);
    }

    method Complete(status: Result<Option<string>, Problem>) returns (outcome: Outcome)
      modifies this
      ensures (View(), outcome) == Done(limits, old(View()), status)
    {
      if responseId.None? {
        return Err(NotActive);
      }
      if status.Err? {
        return Err(status.error);
      }
      var pcmAudio := Join(audioParts);
      if |pcmAudio| % 2 != 0 {
        return Err(OddAudio);
      }
      outcome := Ok(Some(Response(
        responseId.value, Join(transcriptParts), pcmAudio, limits.sampleRate,
        status.value, audioDoneSeen, eventTypes)));
      Reset();
    }

    method Reset()
      modifies this
      ensures View() == INITIAL
    {
      responseId, audioDoneSeen := None, false;
      transcriptParts, audioParts, eventTypes := [], [], [];
      audioBytes, transcriptBytes, eventCount := 0, 0, 0;
    }
  }

  /** The dataclass's own validation: null is the configuration error. */
  method NewCollector(limits: Limits) returns (collector: ResponseCollector?)
    ensures collector != null <==>
            && limits.sampleRate in {8000, 16000, 22050, 24000, 32000, 44100, 48000}
            && 1024 <= limits.maxAudioBytes <= 536_870_912 && 1024 <= limits.maxTranscriptBytes <= 16_777_216
            && 100 <= limits.maxResponseEvents <= 100_000
    ensures collector != null ==> fresh(collector) && collector.limits == limits && collector.View() == INITIAL
  {
    if !ValidLimits(limits) {
      return null;
    }
    collector := new ResponseCollector(limits);
  }

  // ----- What every event keeps -----

  ghost predicate Valid(limits: Limits, s: State) {
    && s.audioBytes == |Join(s.audioParts)| <= limits.maxAudioBytes
    && s.transcriptBytes == |Utf8.Encode(Join(s.transcriptParts))| <= limits.maxTranscriptBytes
    && |s.eventTypes| <= limits.maxResponseEvents && |s.eventTypes| <= s.eventCount
    && (s.responseId.None? ==> s.transcriptParts == [] && s.audioParts == [] && !s.audioDoneSeen)
  }

  lemma {:induction false} JoinLast<T>(parts: seq<seq<T>>, last: seq<T>)
    ensures Join(parts + [last]) == Join(parts) + last
  {
    assert (parts + [last])[..|parts|] == parts;
  }

  lemma {:induction false} EncodeJoined(s: string, t: string)
    ensures Utf8.Encode(s + t) == Utf8.Encode(s) + Utf8.Encode(t)
  {
    if s == "" {
      assert s + t == t;
    } else {
      EncodeJoined(s[1..], t);
      assert (s + t)[1..] == s[1..] + t;
      Associate(Utf8.EncodeChar(s[0]), Utf8.Encode(s[1..]), Utf8.Encode(t));
    }
  }

  lemma {:induction false} Associate(a: Bytes, b: Bytes, c: Bytes)
    ensures a + (b + c) == (a + b) + c
  {
  }

  lemma {:induction false} InitialValid(limits: Limits)
    requires ValidLimits(limits)
    ensures Valid(limits, INITIAL)
  {
  }

  /** Accepted or refused, an event leaves the counters true and the buffers within their limits. */
  lemma {:induction false} StepValid(limits: Limits, s: State, event: Event)
    requires ValidLimits(limits) && Valid(limits, s)
    ensures Valid(limits, Step(limits, s, event).0)
  {
    if event.name.Some? && s.eventCount + 1 <= limits.maxResponseEvents {
      var counted := Counted(s, event.name.value);
      assert Step(limits, s, event) == Dispatch(limits, counted, event);
      DispatchValid(limits, counted, event);
    }
  }

  lemma {:induction false} DispatchValid(limits: Limits, s: State, event: Event)
    requires ValidLimits(limits) && Valid(limits, s)
    ensures Valid(limits, Dispatch(limits, s, event).0)
  {
    match event.kind
    case TextDelta => TextValid(limits, s, event.text);
    case AudioDelta => AudioValid(limits, s, event.chunk);
    case ResponseDone => InitialValid(limits);
    case _ =>
  }

  lemma {:induction false} TextValid(limits: Limits, s: State, text: Result<string, Problem>)
    requires Valid(limits, s)
    ensures Valid(limits, Text(limits, s, text).0)
  {
    if text.Ok? {
      JoinLast(s.transcriptParts, text.value);
      EncodeJoined(Join(s.transcriptParts), text.value);
      Utf8.SizeExactly(text.value);
    }
  }

  lemma {:induction false} AudioValid(limits: Limits, s: State, chunk: Result<Bytes, Problem>)
    requires Valid(limits, s)
    ensures Valid(limits, Audio(limits, s, chunk).0)
  {
    if chunk.Ok? {
      JoinLast(s.audioParts, chunk.value);
    }
  }

  // ----- Whole runs -----

  /** The state after the first `n` events, going on after every error. */
  function After(limits: Limits, events: seq<Event>, n: nat): State
    requires n <= |events|
  {
    if n == 0 then INITIAL else Step(limits, After(limits, events, n - 1), events[n - 1]).0
  }

  function OutcomeAt(limits: Limits, events: seq<Event>, k: nat): Outcome
    requires k < |events|
  {
    Step(limits, After(limits, events, k), events[k]).1
  }

  lemma {:induction false} AfterValid(limits: Limits, events: seq<Event>, n: nat)
    requires ValidLimits(limits) && n <= |events|
    ensures Valid(limits, After(limits, events, n))
  {
    if n == 0 {
      InitialValid(limits);
    } else {
      AfterValid(limits, events, n - 1);
      StepValid(limits, After(limits, events, n - 1), events[n - 1]);
    }
  }

  /** Event `k` was accepted and is of the kind. */
  ghost predicate Accepted(limits: Limits, events: seq<Event>, k: nat, kind: Kind) {
    k < |events| && events[k].kind == kind && OutcomeAt(limits, events, k).Ok?
  }

  ghost predicate Completes(limits: Limits, events: seq<Event>, k: nat)
    requires k < |events|
  {
    OutcomeAt(limits, events, k).Ok? && OutcomeAt(limits, events, k).value.Some?
  }

  /** What an accepted transcript event adds. */
  function NewText(event: Event, outcome: Outcome): seq<string> {
    if event.kind == TextDelta && outcome.Ok? && event.text.Ok? then [event.text.value] else []
  }

  function NewChunk(event: Event, outcome: Outcome): seq<Bytes> {
    if event.kind == AudioDelta && outcome.Ok? && event.chunk.Ok? then [event.chunk.value] else []
  }

  /** The texts accepted after event `c` and before event `end`, in order. */
  ghost function Texts(limits: Limits, events: seq<Event>, c: nat, end: nat): seq<string>
    requires c < end <= |events|
    decreases end
  {
    if end == c + 1 then []
    else Texts(limits, events, c, end - 1) + NewText(events[end - 1], OutcomeAt(limits, events, end - 1))
  }

  ghost function Chunks(limits: Limits, events: seq<Event>, c: nat, end: nat): seq<Bytes>
    requires c < end <= |events|
    decreases end
  {
    if end == c + 1 then []
    else Chunks(limits, events, c, end - 1) + NewChunk(events[end - 1], OutcomeAt(limits, events, end - 1))
  }

  /** How far the run was when the collector was last empty: at its start, or after a completion. */
  ghost function Began(limits: Limits, events: seq<Event>, n: nat): (b: nat)
    requires n <= |events|
    ensures b <= n
  {
    if n == 0 then 0 else if Completes(limits, events, n - 1) then n else Began(limits, events, n - 1)
  }

  /** The number of events with a type. */
  function Named(events: seq<Event>, from: nat, end: nat): nat
    requires from <= end <= |events|
    decreases end
  {
    if from == end then 0 else Named(events, from, end - 1) + if events[end - 1].name.Some? then 1 else 0
  }

  /** The types of the first `max` events that have one, refused events included. */
  function Names(max: int, events: seq<Event>, from: nat, end: nat): seq<string>
    requires from <= end <= |events|
    decreases end
  {
    if from == end then []
    else
      Names(max, events, from, end - 1)
      + if events[end - 1].name.Some? && Named(events, from, end - 1) < max then [events[end - 1].name.value] else []
  }

  function NewName(limits: Limits, s: State, event: Event): seq<string> {
    if event.name.Some? && s.eventCount < limits.maxResponseEvents then [event.name.value] else []
  }

  lemma {:induction false} StepCounts(limits: Limits, s: State, event: Event)
    ensures var (next, outcome) := Step(limits, s, event);
            if outcome.Ok? && outcome.value.Some? then
              next == INITIAL && outcome.value.value.eventTypes == s.eventTypes + NewName(limits, s, event)
            else
              && next.eventTypes == s.eventTypes + NewName(limits, s, event)
              && next.eventCount == s.eventCount + if event.name.Some? then 1 else 0
  {
    assert s.eventTypes + [] == s.eventTypes;
  }

  /** The record holds the types of the events since the collector was last empty. */
  lemma {:induction false} NamesKept(limits: Limits, events: seq<Event>, n: nat)
    requires n <= |events|
    ensures var s, b := After(limits, events, n), Began(limits, events, n);
            s.eventTypes == Names(limits.maxResponseEvents, events, b, n) && s.eventCount == Named(events, b, n)
  {
    if n > 0 {
      NamesKept(limits, events, n - 1);
      StepCounts(limits, After(limits, events, n - 1), events[n - 1]);
    }
  }

  /** Event `c` opened a response that no later event before `n` completed. */
  ghost predicate OpenSince(limits: Limits, events: seq<Event>, c: nat, n: nat)
    requires n <= |events|
  {
    && c < n && Accepted(limits, events, c, ResponseCreated)
    && forall j :: c < j < n ==> !Completes(limits, events, j) && !Accepted(limits, events, j, ResponseCreated)
  }

  /** An end-of-audio event was accepted after event `c`. */
  ghost predicate SawAudioDone(limits: Limits, events: seq<Event>, c: nat, n: nat)
    requires n <= |events|
  {
    exists j :: c < j < n && Accepted(limits, events, j, AudioDone)
  }

  /** What the state holds of the response that event `c` opened. */
  ghost predicate Holds(limits: Limits, events: seq<Event>, c: nat, n: nat)
    requires n <= |events|
  {
    var s := After(limits, events, n);
    && OpenSince(limits, events, c, n)
    && events[c].response.Ok? && s.responseId == Some(events[c].response.value)
    && s.transcriptParts == Texts(limits, events, c, n)
    && s.audioParts == Chunks(limits, events, c, n)
    && (s.audioDoneSeen <==> SawAudioDone(limits, events, c, n))
  }

  /** An active response is the one opened last, with exactly the deltas accepted since. */
  lemma {:induction false} ActiveHolds(limits: Limits, events: seq<Event>, n: nat) returns (c: nat)
    requires ValidLimits(limits) && n <= |events|
    ensures After(limits, events, n).responseId.Some? ==> Holds(limits, events, c, n)
  {
    c := 0;
    if n > 0 {
      c := ActiveHolds(limits, events, n - 1);
      var s, event := After(limits, events, n - 1), events[n - 1];
      AfterValid(limits, events, n - 1);
      if s.responseId.None? {
        c := n - 1;
        if After(limits, events, n).responseId.Some? {
          OnlyCreatedOpens(limits, s, event);
          JustOpened(limits, events, c, n);
        }
      } else if After(limits, events, n).responseId.Some? {
        HoldsStep(limits, events, c, n);
      }
    }
  }

  lemma {:induction false} OnlyCreatedOpens(limits: Limits, s: State, event: Event)
    requires s.responseId.None? && Step(limits, s, event).0.responseId.Some?
    ensures event.kind == ResponseCreated && Step(limits, s, event).1.Ok?
  {
  }

  lemma {:induction false} HoldsStep(limits: Limits, events: seq<Event>, c: nat, n: nat)
    requires ValidLimits(limits) && 0 < n <= |events|
    requires Holds(limits, events, c, n - 1) && After(limits, events, n).responseId.Some?
    ensures Holds(limits, events, c, n)
  {
    var s, event := After(limits, events, n - 1), events[n - 1];
    StepKeepsOpen(limits, s, event);
    SawAudioDoneStep(limits, events, c, n);
  }

  lemma {:induction false} SawAudioDoneStep(limits: Limits, events: seq<Event>, c: nat, n: nat)
    requires c + 1 < n <= |events|
    ensures SawAudioDone(limits, events, c, n)
       <==> SawAudioDone(limits, events, c, n - 1) || Accepted(limits, events, n - 1, AudioDone)
  {
  }

  /** While a response stays open, an accepted delta is appended and nothing else changes what is kept. */
  lemma {:induction false} StepKeepsOpen(limits: Limits, s: State, event: Event)
    requires s.responseId.Some? && Step(limits, s, event).0.responseId.Some?
    ensures var (next, outcome) := Step(limits, s, event);
            && next.responseId == s.responseId
            && (outcome.Ok? ==> outcome.value.None? && event.kind != ResponseCreated)
            && next.transcriptParts == s.transcriptParts + NewText(event, outcome)
            && next.audioParts == s.audioParts + NewChunk(event, outcome)
            && (next.audioDoneSeen <==> s.audioDoneSeen || (event.kind == AudioDone && outcome.Ok?))
  {
    assert s.transcriptParts + [] == s.transcriptParts;
    assert s.audioParts + [] == s.audioParts;
  }

  /**
   A completed response carries the id of the response opened last and, in order, exactly the
   deltas accepted since then; its sizes are within the limits and its audio is whole samples.
   */
  lemma {:induction false} CompletedResponse(limits: Limits, events: seq<Event>, k: nat) returns (c: nat)
    requires ValidLimits(limits) && k < |events| && Completes(limits, events, k)
    ensures OpenSince(limits, events, c, k) && events[k].kind == ResponseDone
    ensures var r := OutcomeAt(limits, events, k).value.value;
            && events[c].response == Ok(r.responseId)
            && events[k].status == Ok(r.status) && r.sampleRate == limits.sampleRate
            && r.transcript == Join(Texts(limits, events, c, k))
            && r.pcmAudio == Join(Chunks(limits, events, c, k))
            && (r.audioDoneSeen <==> SawAudioDone(limits, events, c, k))
            && |r.pcmAudio| % 2 == 0 && |r.pcmAudio| <= limits.maxAudioBytes
            && |Utf8.Encode(r.transcript)| <= limits.maxTranscriptBytes
            && r.eventTypes == Names(limits.maxResponseEvents, events, Began(limits, events, k), k + 1)
            && |r.eventTypes| <= limits.maxResponseEvents
  {
    c := ActiveHolds(limits, events, k);
    AfterValid(limits, events, k);
    NamesKept(limits, events, k);
    CompletionReads(limits, After(limits, events, k), events[k]);
  }

  lemma {:induction false} CompletionReads(limits: Limits, s: State, event: Event)
    requires Step(limits, s, event).1.Ok? && Step(limits, s, event).1.value.Some?
    ensures event.kind == ResponseDone && s.responseId.Some? && event.status.Ok?
    ensures event.name.Some? && s.eventCount < limits.maxResponseEvents
    ensures Step(limits, s, event).1.value.value
         == Response(s.responseId.value, Join(s.transcriptParts), Join(s.audioParts), limits.sampleRate,
                     event.status.value, s.audioDoneSeen, s.eventTypes + [event.name.value])
    ensures |Join(s.audioParts)| % 2 == 0
  {
  }

  /** Which events complete a response, in terms of the run so far. */
  lemma {:induction false} CompletesExactly(limits: Limits, events: seq<Event>, k: nat)
    requires ValidLimits(limits) && k < |events|
    ensures Completes(limits, events, k)
       <==> events[k].name.Some? && events[k].kind == ResponseDone && events[k].status.Ok?
            && Named(events, Began(limits, events, k), k) < limits.maxResponseEvents
            && exists c: nat :: OpenSince(limits, events, c, k) && |Join(Chunks(limits, events, c, k))| % 2 == 0
  {
    StepCompletes(limits, After(limits, events, k), events[k]);
    NamesKept(limits, events, k);
    var active := ActiveHolds(limits, events, k);
    if After(limits, events, k).responseId.Some? {
      assert OpenSince(limits, events, active, k);
    }
    forall c: nat | OpenSince(limits, events, c, k) ensures Holds(limits, events, c, k) {
      OpenIsActive(limits, events, c, k);
    }
  }

  lemma {:induction false} StepCompletes(limits: Limits, s: State, event: Event)
    ensures Step(limits, s, event).1.Ok? && Step(limits, s, event).1.value.Some?
       <==> event.name.Some? && event.kind == ResponseDone && event.status.Ok?
            && s.eventCount < limits.maxResponseEvents
            && s.responseId.Some? && |Join(s.audioParts)| % 2 == 0
  {
  }

  lemma {:induction false} OpenIsActive(limits: Limits, events: seq<Event>, c: nat, n: nat)
    requires ValidLimits(limits) && n <= |events| && OpenSince(limits, events, c, n)
    ensures Holds(limits, events, c, n)
  {
    if c == n - 1 {
      JustOpened(limits, events, c, n);
    } else {
      OpenIsActive(limits, events, c, n - 1);
      OpenStep(limits, events, c, n);
    }
  }

  lemma {:induction false} OpenStep(limits: Limits, events: seq<Event>, c: nat, n: nat)
    requires ValidLimits(limits) && 0 < n <= |events|
    requires Holds(limits, events, c, n - 1) && !Completes(limits, events, n - 1)
    ensures Holds(limits, events, c, n)
  {
    StaysOpen(limits, After(limits, events, n - 1), events[n - 1]);
    HoldsStep(limits, events, c, n);
  }

  lemma {:induction false} JustOpened(limits: Limits, events: seq<Event>, c: nat, n: nat)
    requires ValidLimits(limits) && n == c + 1 && Accepted(limits, events, c, ResponseCreated)
    ensures Holds(limits, events, c, n)
  {
    AfterValid(limits, events, c);
    CreatedOpens(limits, After(limits, events, c), events[c]);
  }

  lemma {:induction false} CreatedOpens(limits: Limits, s: State, event: Event)
    requires event.kind == ResponseCreated && Step(limits, s, event).1.Ok?
    ensures var next := Step(limits, s, event).0;
            s.responseId.None? && event.response.Ok? && next.responseId == Some(event.response.value)
            && next.transcriptParts == s.transcriptParts && next.audioParts == s.audioParts
            && next.audioDoneSeen == s.audioDoneSeen
  {
  }

  lemma {:induction false} StaysOpen(limits: Limits, s: State, event: Event)
    requires s.responseId.Some?
    requires var outcome := Step(limits, s, event).1; !(outcome.Ok? && outcome.value.Some?)
    ensures Step(limits, s, event).0.responseId.Some?
  {
  }

  /** Every completed response fits a RIFF file. */
  lemma {:induction false} ResponseFitsWav(limits: Limits, events: seq<Event>, k: nat)
    requires ValidLimits(limits) && k < |events| && Completes(limits, events, k)
    ensures var r := OutcomeAt(limits, events, k).value.value; Wav.Create(r.pcmAudio, r.sampleRate).Ok?
  {
    var c := CompletedResponse(limits, events, k);
  }
}

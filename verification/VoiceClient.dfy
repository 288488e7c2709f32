/**
 The voice client's connection and turns. What the network does is given as scripts of answers,
 and what the client does to it is kept as a log; cancellation between steps is not modelled.
 */
module VoiceClient {
  import opened Wrappers
  import opened VoiceEvents
  import opened VoiceCollector
  import Json
  import JsonText
  import Utf8
  import WorkflowText

  // ----- Messages and the log -----

  datatype Message = SessionUpdate | UserItem(text: string) | ResponseRequest

  /** What happens on the client's sockets, which are numbered as they are opened. */
  datatype Action =
    | Opened(socket: nat)
    | Sent(socket: nat, message: Message)
    | Received(socket: nat, kind: Kind)
    | Closed(socket: nat)

  datatype SessionConfig = SessionConfig(
    limits: Limits, resumptionEnabled: bool, maxEventBytes: int, sessionUpdate: Json.Json)

  function TextPart(text: string): Json.Json {
    Json.Obj([Json.Field("type", Json.Str("input_text")), Json.Field("text", Json.Str(text))])
  }

  function UserMessage(text: string): Json.Json {
    Json.Obj([
      Json.Field("type", Json.Str("message")), Json.Field("role", Json.Str("user")),
      Json.Field("content", Json.Arr([TextPart(text)]))])
  }

  function Payload(config: SessionConfig, message: Message): Json.Json {
    match message
    case SessionUpdate => config.sessionUpdate
    case UserItem(text) =>
      Json.Obj([Json.Field("type", Json.Str("conversation.item.create")), Json.Field("item", UserMessage(text))])
    case ResponseRequest => Json.Obj([Json.Field("type", Json.Str("response.create"))])
  }

  function PayloadSize(config: SessionConfig, message: Message): nat {
    |Utf8.Encode(Json.Print(JsonText.PythonDumps, Payload(config, message)))|
  }

  /** What a wait for the next event ends in. */
  datatype Incoming = Arrived(event: Json.Fields) | Unreadable | Silent | Broken

  datatype Failure =
    | UrlRefused
    | OpenFailed
    | NotConnected
    | TooLarge
    | SendFailed
    | TimedOut
    | ReceiveFailed
    | BadEvent
    | BadConversation(problem: Problem)
    | RemoteFailure
    | Refused(problem: Problem)
    | SinkFailed
    | Unfinished
    | BadPrompt
    | Ambiguous

  /** Failures of a connection or a turn under way, as opposed to a call refused before it begins. */
  predicate UnderWay(failure: Failure) {
    failure != UrlRefused && failure != BadPrompt
  }

  // ----- Reading the network's answers -----

  function Rest<T>(script: seq<T>): seq<T> {
    if script == [] then [] else script[1..]
  }

  /** What the next wait ends in; an exhausted script is silence. */
  function Head(incoming: seq<Incoming>): Incoming {
    if incoming == [] then Silent else incoming[0]
  }

  function Heed(next: Incoming): Result<Event, Failure> {
    match next
    case Silent => Err(TimedOut)
    case Broken => Err(ReceiveFailed)
    case Unreadable => Err(BadEvent)
    case Arrived(fields) => if ReadEvent(fields).name.None? then Err(BadEvent) else Ok(ReadEvent(fields))
  }

  /** Events that end any wait: a malformed conversation id, and an error. */
  function Admit(event: Event): Result<Event, Failure> {
    if event.kind == ConversationCreated && event.conversation.Err? then Err(BadConversation(event.conversation.error))
    else if event.kind == RemoteError then Err(RemoteFailure)
    else Ok(event)
  }

  function Next(incoming: seq<Incoming>): Result<Event, Failure> {
    match Heed(Head(incoming))
    case Err(failure) => Err(failure)
    case Ok(event) => Admit(event)
  }

  /** The conversation id after an event. */
  function Captured(config: SessionConfig, id: Option<string>, event: Event): Option<string> {
    if event.kind == ConversationCreated && event.conversation.Ok? && config.resumptionEnabled
    then Some(event.conversation.value) else id
  }

  function CapturedAll(config: SessionConfig, id: Option<string>, events: seq<Event>): Option<string> {
    if events == [] then id
    else Captured(config, CapturedAll(config, id, events[..|events| - 1]), events[|events| - 1])
  }

  /** The events are those that arrived first, one after the other, and none of them ended a wait. */
  ghost predicate Heard(incoming: seq<Incoming>, events: seq<Event>) {
    |events| <= |incoming| && forall k :: 0 <= k < |events| ==> Next(incoming[k..]) == Ok(events[k])
  }

  // ----- Sending -----

  predicate Works(script: seq<bool>) {
    script != [] && script[0]
  }

  function Sending(config: SessionConfig, open: bool, sends: seq<bool>, message: Message): Option<Failure> {
    if !open then Some(NotConnected)
    else if PayloadSize(config, message) > config.maxEventBytes then Some(TooLarge)
    else if Works(sends) then None
    else Some(SendFailed)
  }

  /** The answers to sending that remain once a socket is configured: a new one took the session update. */
  function SendsLeft(socket: Option<nat>, sends: seq<bool>): seq<bool> {
    if socket.Some? then sends else Rest(sends)
  }

  /** Both messages of a turn are small enough, and the socket takes them. */
  predicate Deliverable(config: SessionConfig, sends: seq<bool>, prompt: string) {
    && Sending(config, true, sends, UserItem(prompt)).None?
    && Sending(config, true, Rest(sends), ResponseRequest).None?
  }

  /** Why a connection fails, after the events that arrived on it. */
  ghost predicate ConnectStops(
    config: SessionConfig, opens: seq<bool>, sends: seq<bool>, incoming: seq<Incoming>, failure: Failure)
  {
    if !Works(opens) then failure == OpenFailed
    else if Sending(config, true, sends, SessionUpdate).Some? then
      Some(failure) == Sending(config, true, sends, SessionUpdate)
    else Next(incoming) == Err(failure)
  }

  /** How the last event can end the wait for a response in a failure. */
  ghost predicate HandlingStops(limits: Limits, hasSink: bool, events: seq<Event>, failure: Failure) {
    && events != []
    && match failure
       case Refused(problem) => OutcomeAt(limits, events, |events| - 1) == Err(problem)
       case SinkFailed => hasSink && events[|events| - 1].kind == TextDelta
       case Unfinished =>
         exists response :: CompletedBy(limits, events, response) && response.status !in {None, Some("completed")}
       case _ => false
  }

  /** Why the wait for a response ends in a failure, after those events. */
  ghost predicate AwaitStops(
    limits: Limits, hasSink: bool, incoming: seq<Incoming>, events: seq<Event>, failure: Failure)
  {
    || HandlingStops(limits, hasSink, events, failure)
    || (|events| <= |incoming| && Next(incoming[|events|..]) == Err(failure))
  }

  /** Why a turn on a ready connection fails. */
  ghost predicate TurnStops(
    config: SessionConfig, hasSink: bool, sends: seq<bool>, prompt: string, incoming: seq<Incoming>,
    events: seq<Event>, failure: Failure)
  {
    if !Deliverable(config, sends, prompt) then failure == Ambiguous && events == []
    else AwaitStops(config.limits, hasSink, incoming, events, failure)
  }

  lemma {:induction false} HeardOne(incoming: seq<Incoming>, events: seq<Event>, event: Event)
    requires Heard(incoming, events) && |events| < |incoming| && Next(incoming[|events|..]) == Ok(event)
    ensures Heard(incoming, events + [event])
    ensures Rest(incoming[|events|..]) == incoming[|events + [event]|..]
  {
  }

  lemma {:induction false} HeardJoin(incoming: seq<Incoming>, a: seq<Event>, b: seq<Event>)
    requires Heard(incoming, a) && Heard(incoming[|a|..], b)
    ensures Heard(incoming, a + b) && incoming[|a|..][|b|..] == incoming[|a + b|..]
  {
    forall k | 0 <= k < |a + b| ensures Next(incoming[k..]) == Ok((a + b)[k]) {
      if k >= |a| {
        assert incoming[|a|..][k - |a|..] == incoming[k..];
      }
    }
  }

  lemma {:induction false} CapturedOne(config: SessionConfig, id: Option<string>, events: seq<Event>, event: Event)
    ensures CapturedAll(config, id, events + [event]) == Captured(config, CapturedAll(config, id, events), event)
  {
    assert (events + [event])[..|events|] == events;
  }

  lemma {:induction false} CapturedJoin(config: SessionConfig, id: Option<string>, a: seq<Event>, b: seq<Event>)
    ensures CapturedAll(config, id, a + b) == CapturedAll(config, CapturedAll(config, id, a), b)
  {
    if b == [] {
      assert a + b == a;
    } else {
      var front, last := b[..|b| - 1], b[|b| - 1];
      CapturedJoin(config, id, a, front);
      assert a + b == (a + front) + [last];
      CapturedOne(config, id, a + front, last);
    }
  }

  // ----- Reading the log -----

  /**
   Where a log leaves the client: sockets opened so far, the open one, whether its session update
   was sent, and whether session.updated arrived after that.
   */
  datatype Phase = Phase(openings: nat, socket: Option<nat>, configured: bool, ready: bool)

  /** One action in a phase, or None when it may not happen there. */
  function Advance(p: Phase, a: Action): Option<Phase> {
    match a
    case Opened(n) =>
      if p.socket.None? && n == p.openings then Some(Phase(p.openings + 1, Some(n), false, false)) else None
    case Sent(n, m) =>
      if p.socket != Some(n) then None
      else if m.SessionUpdate? then Some(p.(configured := true))
      else if p.configured && p.ready then Some(p)
      else None
    case Received(n, kind) =>
      if p.socket != Some(n) then None
      else Some(p.(ready := p.ready || (p.configured && kind == SessionUpdated)))
    case Closed(n) => if p.socket == Some(n) then Some(Phase(p.openings, None, false, false)) else None
  }

  function Replay(log: seq<Action>): Option<Phase> {
    if log == [] then Some(Phase(0, None, false, false))
    else
      var p :- Replay(log[..|log| - 1]);
      Advance(p, log[|log| - 1])
  }

  /**
   A turn's messages go out only on an open socket on which the session update was sent and
   session.updated received.
   */
  ghost predicate TurnsOnReady(log: seq<Action>) {
    forall k :: 0 <= k < |log| && log[k].Sent? && !log[k].message.SessionUpdate? ==>
      && Opened(log[k].socket) in log[..k]
      && Sent(log[k].socket, SessionUpdate) in log[..k]
      && Received(log[k].socket, SessionUpdated) in log[..k]
      && Closed(log[k].socket) !in log[..k]
  }

  /** Every socket opened and not the open one was closed. */
  ghost predicate NoneLeftOpen(log: seq<Action>, open: Option<nat>) {
    forall n: nat :: Opened(n) in log && Some(n) != open ==> Closed(n) in log
  }

  /** The facts about the log that its phase stands for. */
  ghost predicate Backed(log: seq<Action>, p: Phase) {
    && (p.socket.Some? ==> p.socket.value < p.openings)
    && (p.socket.Some? ==> Opened(p.socket.value) in log && Closed(p.socket.value) !in log)
    && (p.configured ==> p.socket.Some? && Sent(p.socket.value, SessionUpdate) in log)
    && (p.ready ==> p.socket.Some? && Received(p.socket.value, SessionUpdated) in log)
    && (forall n: nat :: Opened(n) in log || Closed(n) in log ==> n < p.openings)
    && NoneLeftOpen(log, p.socket)
  }

  lemma {:induction false} BackedNext(log: seq<Action>, p: Phase, a: Action)
    requires Backed(log, p) && Advance(p, a).Some?
    ensures Backed(log + [a], Advance(p, a).value)
  {
    var longer, next := log + [a], Advance(p, a).value;
    forall x: Action ensures x in longer <==> x in log || x == a {}
    forall n: nat | Opened(n) in longer && Some(n) != next.socket ensures Closed(n) in longer {
      assert Opened(n) in log || Opened(n) == a;
      assert Some(n) != p.socket || Closed(n) == a;
    }
  }

  lemma {:induction false} TurnsNext(log: seq<Action>, p: Phase, a: Action)
    requires TurnsOnReady(log) && Backed(log, p) && Advance(p, a).Some?
    ensures TurnsOnReady(log + [a])
  {
    var longer := log + [a];
    forall k | 0 <= k < |longer| && longer[k].Sent? && !longer[k].message.SessionUpdate?
      ensures Opened(longer[k].socket) in longer[..k] && Sent(longer[k].socket, SessionUpdate) in longer[..k]
      ensures Received(longer[k].socket, SessionUpdated) in longer[..k]
      ensures Closed(longer[k].socket) !in longer[..k]
    {
      if k < |log| {
        assert longer[..k] == log[..k];
      } else {
        assert longer[..k] == log;
      }
    }
  }

  /** A log that can be replayed is safe. */
  lemma {:induction false} ReplaySafe(log: seq<Action>)
    requires Replay(log).Some?
    ensures TurnsOnReady(log) && Backed(log, Replay(log).value)
  {
    if log != [] {
      var before, a := log[..|log| - 1], log[|log| - 1];
      ReplaySafe(before);
      BackedNext(before, Replay(before).value, a);
      TurnsNext(before, Replay(before).value, a);
      assert log == before + [a];
    }
  }

  lemma {:induction false} ReplayNext(log: seq<Action>, a: Action)
    requires Replay(log).Some?
    ensures Replay(log + [a]) == Advance(Replay(log).value, a)
  {
    assert (log + [a])[..|log|] == log;
  }

  /** The turn messages in a log, in order. */
  function TurnMessages(log: seq<Action>): seq<Message> {
    if log == [] then []
    else TurnMessages(log[..|log| - 1]) + TurnMessage(log[|log| - 1])
  }

  function TurnMessage(a: Action): seq<Message> {
    if a.Sent? && !a.message.SessionUpdate? then [a.message] else []
  }

  lemma {:induction false} TurnMessagesNext(log: seq<Action>, a: Action)
    ensures TurnMessages(log + [a]) == TurnMessages(log) + TurnMessage(a)
  {
    assert (log + [a])[..|log|] == log;
  }

  // ----- Prompts -----

  /** _validate_non_empty_text with the prompt's limit. */
  predicate ValidPrompt(prompt: string) {
    !WorkflowText.Blank(prompt) && |prompt| <= 32_000 && '\0' !in prompt
  }

  /** A prompt has something besides white space, no null character, and at most 32,000 characters. */
  lemma {:induction false} PromptExactly(prompt: string)
    ensures ValidPrompt(prompt) <==>
            && (exists i :: 0 <= i < |prompt| && !WorkflowText.IsSpace(prompt[i]))
            && |prompt| <= 32_000 && forall i :: 0 <= i < |prompt| ==> prompt[i] as int != 0
  {
    BlankExactly(prompt);
    assert '\0' as int == 0;
  }

  lemma {:induction false} BlankExactly(s: string)
    ensures WorkflowText.Blank(s) <==> forall i :: 0 <= i < |s| ==> WorkflowText.IsSpace(s[i])
  {
    if s != "" && WorkflowText.IsSpace(s[0]) {
      BlankExactly(s[1..]);
      assert forall i :: 0 < i < |s| ==> s[i] == s[1..][i - 1];
    }
  }

  function Turn(prompt: string): seq<Message> {
    [UserItem(prompt), ResponseRequest]
  }

  // ----- The client -----

  class XaiVoiceClient {
    const config: SessionConfig
    const hasSink: bool
    var conversationId: Option<string>
    var websocket: Option<nat>
    var sessionReady: bool
    var openings: nat

    // The network's answers still to come, and whether each call of the transcript sink returns;
    // when a script ends, opening and sending fail, waits time out, and the sink returns.
    var opens: seq<bool>
    var sends: seq<bool>
    var incoming: seq<Incoming>
    var sinkReturns: seq<bool>

    var sunk: seq<string>
    ghost var log: seq<Action>

    /** The phase the log has reached. */
    ghost function Now(): Phase
      requires Replay(log).Some?
      reads this
    {
      Replay(log).value
    }

    ghost predicate Consistent()
      reads this
    {
      && ValidLimits(config.limits)
      && Replay(log).Some? && Now().openings == openings && Now().socket == websocket
      && (sessionReady ==> websocket.Some? && Now().configured && Now().ready)
      && (conversationId.Some? ==> config.resumptionEnabled && WellFormedId(conversationId.value))
    }

    /** What holds between calls: a socket is kept only while its session is ready. */
    ghost predicate Valid()
      reads this
    {
      Consistent() && (websocket.Some? <==> sessionReady)
    }

    constructor (
      config: SessionConfig, hasSink: bool,
      opens: seq<bool>, sends: seq<bool>, incoming: seq<Incoming>, sinkReturns: seq<bool>)
      requires ValidLimits(config.limits)
      ensures Valid() && log == [] && sunk == [] && this.config == config && this.hasSink == hasSink
    {
      this.config, this.hasSink := config, hasSink;
      conversationId, websocket, sessionReady, openings := None, None, false, 0;
      this.opens, this.sends, this.incoming, this.sinkReturns := opens, sends, incoming, sinkReturns;
      sunk, log := [], [];
    }

    ghost method Record(a: Action)
      requires Replay(log).Some?
      modifies `log
      ensures log == old(log) + [a]
      ensures Replay(log) == Advance(Replay(old(log)).value, a)
      ensures TurnMessages(log) == TurnMessages(old(log)) + TurnMessage(a)
    {
      ReplayNext(log, a);
      TurnMessagesNext(log, a);
      log := log + [a];
    }

    method Close()
      requires Consistent()
      modifies `websocket, `sessionReady, `log
      ensures Valid() && websocket.None?
      ensures TurnMessages(log) == TurnMessages(old(log))
    {
      var socket := websocket;
      websocket, sessionReady := None, false;
      if socket.Some? {
        Record(Closed(socket.value));
      }
    }

    method SendEvent(message: Message) returns (failure: Option<Failure>, ghost sent: seq<Message>)
      requires Consistent() && (message.SessionUpdate? || sessionReady || websocket.None?)
      modifies `sends, `log
      ensures Consistent()
      ensures var goesOut := websocket.Some? && PayloadSize(config, message) <= config.maxEventBytes;
              && log == (if goesOut then old(log) + [Sent(websocket.value, message)] else old(log))
              && sent == (if goesOut && !message.SessionUpdate? then [message] else [])
              && sends == (if goesOut then Rest(old(sends)) else old(sends))
      ensures failure == Sending(config, websocket.Some?, old(sends), message)
      ensures TurnMessages(log) == TurnMessages(old(log)) + sent
      ensures failure.Some? ==> UnderWay(failure.value)
      ensures failure.None? && message.SessionUpdate? ==> Now().configured
    {
      sent := [];
      if websocket.None? {
        return Some(NotConnected), sent;
      }
      if PayloadSize(config, message) > config.maxEventBytes {
        return Some(TooLarge), sent;
      }
      var works := sends != [] && sends[0];
      sends := if sends == [] then [] else sends[1..];
      Record(Sent(websocket.value, message));
      sent := if message.SessionUpdate? then [] else [message];
      return if works then None else Some(SendFailed), sent;
    }

    method ReceiveEvent() returns (event: Result<Event, Failure>)
      requires Consistent()
      modifies `incoming, `websocket, `sessionReady, `log
      ensures Consistent()
      ensures old(websocket).None? ==> event == Err(NotConnected) && incoming == old(incoming) && log == old(log)
      ensures old(websocket).Some? ==> event == Heed(Head(old(incoming))) && incoming == Rest(old(incoming))
      ensures event == Err(TimedOut) ==> Valid() && websocket.None?
      ensures event != Err(TimedOut) ==> (websocket, sessionReady) == (old(websocket), old(sessionReady))
      ensures event.Err? ==> UnderWay(event.error)
      ensures event.Ok? ==> Some(Now()) == Advance(old(Now()), Received(websocket.value, event.value.kind))
      ensures event.Ok? ==> event.value.conversation.Ok? ==> WellFormedId(event.value.conversation.value)
      ensures TurnMessages(log) == TurnMessages(old(log))
    {
      if websocket.None? {
        return Err(NotConnected);
      }
      var next := if incoming == [] then Silent else incoming[0];
      incoming := if incoming == [] then [] else incoming[1..];
      match next {
        case Silent =>
          Close();
          return Err(TimedOut);
        case Broken => return Err(ReceiveFailed);
        case Unreadable => return Err(BadEvent);
        case Arrived(fields) =>
          var e := ReadEvent(fields);
          if e.name.None? {
            return Err(BadEvent);
          }
          Record(Received(websocket.value, e.kind));
          return Ok(e);
      }
    }

    /** The next event of a wait, its conversation id captured; an error event is a failure. */
    method ReceiveNext() returns (event: Result<Event, Failure>)
      requires Consistent() && websocket.Some?
      modifies `incoming, `websocket, `sessionReady, `conversationId, `log
      ensures Consistent() && TurnMessages(log) == TurnMessages(old(log))
      ensures event == Next(old(incoming)) && incoming == Rest(old(incoming))
      ensures event.Ok? ==> old(incoming) != []
      ensures event == Err(TimedOut) ==> Valid() && websocket.None?
      ensures event != Err(TimedOut) ==> (websocket, sessionReady) == (old(websocket), old(sessionReady))
      ensures event.Err? ==> UnderWay(event.error)
      ensures event.Ok? ==>
                && conversationId == Captured(config, old(conversationId), event.value)
                && Some(Now()) == Advance(old(Now()), Received(websocket.value, event.value.kind))
    {
      event := ReceiveEvent();
      if event.Err? {
        return;
      }
      var failure := CaptureConversationId(event.value);
      if failure.Some? {
        return Err(failure.value);
      }
      if event.value.kind == RemoteError {
        return Err(RemoteFailure);
      }
    }

    method CaptureConversationId(event: Event) returns (failure: Option<Failure>)
      requires Consistent()
      requires event.conversation.Ok? ==> WellFormedId(event.conversation.value)
      modifies `conversationId
      ensures Consistent()
      ensures failure.Some? <==> event.kind == ConversationCreated && event.conversation.Err?
      ensures failure.Some? ==> failure.value == BadConversation(event.conversation.error)
      ensures conversationId == Captured(config, old(conversationId), event)
    {
      if event.kind != ConversationCreated {
        return None;
      }
      if event.conversation.Err? {
        return Some(BadConversation(event.conversation.error));
      }
      if config.resumptionEnabled {
        conversationId := Some(event.conversation.value);
      }
      return None;
    }

    /** Since `start` and `id`, exactly these events were taken in, and the ids they carry captured. */
    ghost predicate Tracking(start: seq<Incoming>, id: Option<string>, heard: seq<Event>)
      reads this
    {
      && Heard(start, heard) && incoming == start[|heard|..]
      && conversationId == CapturedAll(config, id, heard)
    }

    method HearNext(ghost start: seq<Incoming>, ghost id: Option<string>, ghost heard: seq<Event>)
      returns (event: Result<Event, Failure>)
      requires Consistent() && websocket.Some? && Tracking(start, id, heard)
      modifies `incoming, `websocket, `sessionReady, `conversationId, `log
      ensures Consistent() && TurnMessages(log) == TurnMessages(old(log))
      ensures event.Err? ==> UnderWay(event.error) && Next(start[|heard|..]) == event
      ensures event == Err(TimedOut) ==> Valid() && websocket.None?
      ensures event != Err(TimedOut) ==> (websocket, sessionReady) == (old(websocket), old(sessionReady))
      ensures event.Ok? ==>
                && Tracking(start, id, heard + [event.value]) && |incoming| < |old(incoming)|
                && Some(Now()) == Advance(old(Now()), Received(websocket.value, event.value.kind))
    {
      event := ReceiveNext();
      if event.Ok? {
        HeardOne(start, heard, event.value);
        CapturedOne(config, id, heard, event.value);
      }
    }

    /** `heard` are the events that arrived and did not end the wait in failure. */
    method WaitForSessionReady() returns (failure: Option<Failure>, ghost heard: seq<Event>)
      requires Consistent() && websocket.Some? && Now().configured
      modifies `incoming, `websocket, `sessionReady, `conversationId, `log
      ensures Consistent()
      ensures Heard(old(incoming), heard)
      ensures failure.Some? ==>
                UnderWay(failure.value) && Next(old(incoming)[|heard|..]) == Err(failure.value) && NoneReady(heard)
      ensures failure.None? ==>
                && Valid() && websocket.Some?
                && EndsReady(heard) && Tracking(old(incoming), old(conversationId), heard)
      ensures TurnMessages(log) == TurnMessages(old(log))
    {
      heard := [];
      while true
        invariant Consistent() && websocket.Some? && Now().configured && TurnMessages(log) == TurnMessages(old(log))
        invariant Tracking(old(incoming), old(conversationId), heard) && NoneReady(heard)
        decreases |incoming|
      {
        var event;
        event, heard := WaitOne(old(incoming), old(conversationId), heard);
        if event.Err? {
          return Some(event.error), heard;
        }
        if event.value.kind == SessionUpdated {
          return None, heard;
        }
      }
    }

    /** One pass of that wait; session.updated makes the session ready. */
    method WaitOne(ghost start: seq<Incoming>, ghost id: Option<string>, ghost heard: seq<Event>)
      returns (event: Result<Event, Failure>, ghost more: seq<Event>)
      requires Consistent() && websocket.Some? && Now().configured
      requires Tracking(start, id, heard) && NoneReady(heard)
      modifies `incoming, `websocket, `sessionReady, `conversationId, `log
      ensures Consistent() && TurnMessages(log) == TurnMessages(old(log)) && Heard(start, more)
      ensures event.Err? ==> UnderWay(event.error) && Next(start[|more|..]) == event && NoneReady(more)
      ensures event.Ok? ==>
                && websocket.Some? && Now().configured && Tracking(start, id, more) && |incoming| < |old(incoming)|
                && if event.value.kind == SessionUpdated then Valid() && EndsReady(more) else NoneReady(more)
    {
      more := heard;
      event := HearNext(start, id, heard);
      if event.Ok? {
        ReadyOrNot(heard, event.value);
        more := heard + [event.value];
        if event.value.kind == SessionUpdated {
          sessionReady := true;
        }
      }
    }

    /**
     Opens a socket and configures its session; any failure leaves nothing open and no conversation.
     `heard` are the events up to session.updated.
     */
    method Connect() returns (failure: Option<Failure>, ghost heard: seq<Event>)
      requires Valid()
      modifies this
      ensures Valid()
      ensures Heard(old(incoming), heard)
      ensures failure.None? ==>
                && websocket.Some? && Tracking(old(incoming), old(conversationId), heard)
                && sends == SendsLeft(old(websocket), old(sends))
                && if old(websocket).Some? then heard == [] else EndsReady(heard)
      ensures failure.Some? ==>
                && websocket.None? && conversationId.None? && UnderWay(failure.value)
                && ConnectStops(config, old(opens), old(sends), old(incoming)[|heard|..], failure.value)
                && NoneReady(heard)
      ensures old(websocket).Some? ==> (failure.None? && websocket == old(websocket) && log == old(log))
      ensures TurnMessages(log) == TurnMessages(old(log)) && (sunk, sinkReturns) == (old(sunk), old(sinkReturns))
    {
      heard := [];
      if websocket.Some? {
        return None, heard;
      }
      if conversationId.Some? {
        if !config.resumptionEnabled || !WellFormedId(conversationId.value) {
          return Some(UrlRefused), heard;
        }
      }
      failure, heard := Configure();
      if failure.Some? {
        conversationId := None;
        Close();
      }
    }

    method OpenSocket() returns (works: bool)
      requires Valid() && websocket.None?
      modifies `opens, `websocket, `openings, `log
      ensures Consistent() && (works <==> websocket.Some?) && works == Works(old(opens))
      ensures TurnMessages(log) == TurnMessages(old(log))
    {
      works := opens != [] && opens[0];
      opens := if opens == [] then [] else opens[1..];
      if works {
        websocket, openings := Some(openings), openings + 1;
        Record(Opened(openings - 1));
      }
    }

    method SendUpdate() returns (failure: Option<Failure>)
      requires Consistent() && websocket.Some?
      modifies `sends, `log
      ensures Consistent() && TurnMessages(log) == TurnMessages(old(log))
      ensures failure == Sending(config, true, old(sends), SessionUpdate)
      ensures failure.Some? ==> UnderWay(failure.value)
      ensures failure.None? ==> Now().configured && sends == Rest(old(sends))
    {
      ghost var sent;
      failure, sent := SendEvent(SessionUpdate);
    }

    /** The guarded steps of a connection. */
    method Configure() returns (failure: Option<Failure>, ghost heard: seq<Event>)
      requires Valid() && websocket.None?
      modifies `opens, `sends, `incoming, `websocket, `sessionReady, `conversationId, `openings, `log
      ensures Consistent()
      ensures Heard(old(incoming), heard)
      ensures failure.None? ==>
                && Valid() && websocket.Some?
                && EndsReady(heard) && Tracking(old(incoming), old(conversationId), heard)
                && sends == Rest(old(sends))
      ensures failure.Some? ==>
                && UnderWay(failure.value)
                && ConnectStops(config, old(opens), old(sends), old(incoming)[|heard|..], failure.value)
                && NoneReady(heard)
      ensures TurnMessages(log) == TurnMessages(old(log))
    {
      heard := [];
      var works := OpenSocket();
      if !works {
        return Some(OpenFailed), heard;
      }
      failure := SendUpdate();
      if failure.Some? {
        return;
      }
      failure, heard := WaitForSessionReady();
    }

    /**
     Why a run fails: its connection did, with nothing ready, or the turn on the connection it had. `incoming`
     is what was to come after the events heard while connecting.
     */
    ghost predicate RunStops(
      socket: Option<nat>, opens: seq<bool>, sends: seq<bool>, prompt: string, incoming: seq<Incoming>,
      heard: seq<Event>, events: seq<Event>, failure: Failure)
    {
      || (socket.None? && NoneReady(heard) && events == [] && ConnectStops(config, opens, sends, incoming, failure))
      || ((if socket.Some? then heard == [] else EndsReady(heard)) && ValidPrompt(prompt)
          && TurnStops(config, hasSink, SendsLeft(socket, sends), prompt, incoming, events, failure))
    }

    /**
     One text turn. Its item and its response request are sent at most once each, in that order; a
     prompt refused before sending leaves the connection as it is, and any later failure closes it
     and forgets the conversation. `heard` are the events of a connection made first and `events`
     those of the turn: together, the events that arrived.
     */
    method RunTurn(prompt: string)
      returns (
        result: Result<Response, Failure>, ghost sent: seq<Message>, ghost heard: seq<Event>, ghost events: seq<Event>)
      requires Valid()
      modifies this
      ensures Valid()
      ensures TurnMessages(log) == TurnMessages(old(log)) + sent && sent <= Turn(prompt)
      ensures forall m :: m in sent ==> PayloadSize(config, m) <= config.maxEventBytes
      ensures !ValidPrompt(prompt) ==> sent == [] && result.Err?
      ensures result == Err(BadPrompt) ==> !ValidPrompt(prompt) && websocket.Some?
      ensures result == Err(BadPrompt) && old(websocket).Some? ==>
                websocket == old(websocket) && conversationId == old(conversationId) && log == old(log)
      ensures Heard(old(incoming), heard + events)
      ensures result.Err? && result != Err(BadPrompt) ==>
                && websocket.None? && conversationId.None?
                && RunStops(old(websocket), old(opens), old(sends), prompt, old(incoming)[|heard|..], heard, events,
                            result.error)
      ensures result == Err(SinkFailed) ==> false in old(sinkReturns)
      ensures result.Ok? ==>
                && websocket.Some? && sent == Turn(prompt)
                && Deliverable(config, SendsLeft(old(websocket), old(sends)), prompt)
                && result.value.status in {None, Some("completed")}
                && CompletedBy(config.limits, events, result.value)
                && (if old(websocket).Some? then heard == [] else EndsReady(heard))
                && Tracking(old(incoming), old(conversationId), heard + events)
      ensures result.Ok? && hasSink ==> Relayed(old(sunk), sunk, result.value.transcript)
    {
      sent, heard, events := [], [], [];
      if websocket.None? || !sessionReady {
        var failure;
        failure, heard := Connect();
        assert heard + [] == heard;
        if failure.Some? {
          return Err(failure.value), sent, heard, events;
        }
      }
      assert heard + [] == heard;
      if !ValidPrompt(prompt) {
        return Err(BadPrompt), sent, heard, events;
      }
      result, sent, events := TurnAfter(prompt, old(incoming), old(conversationId), heard);
    }

    /** The turn once the events heard so far are done with. */
    method TurnAfter(prompt: string, ghost start: seq<Incoming>, ghost id: Option<string>, ghost heard: seq<Event>)
      returns (result: Result<Response, Failure>, ghost sent: seq<Message>, ghost events: seq<Event>)
      requires Valid() && websocket.Some? && Tracking(start, id, heard)
      modifies this
      ensures Valid()
      ensures TurnMessages(log) == TurnMessages(old(log)) + sent && sent <= Turn(prompt)
      ensures forall m :: m in sent ==> PayloadSize(config, m) <= config.maxEventBytes
      ensures Heard(start, heard + events)
      ensures result.Err? ==>
                && UnderWay(result.error) && websocket.None? && conversationId.None?
                && TurnStops(config, hasSink, old(sends), prompt, start[|heard|..], events, result.error)
      ensures result == Err(SinkFailed) ==> false in old(sinkReturns)
      ensures result.Ok? ==>
                && Deliverable(config, old(sends), prompt)
                && websocket.Some? && sent == Turn(prompt)
                && result.value.status in {None, Some("completed")}
                && CompletedBy(config.limits, events, result.value)
                && Tracking(start, id, heard + events)
      ensures result.Ok? && hasSink ==> Relayed(old(sunk), sunk, result.value.transcript)
    {
      result, sent, events := SendAndAwait(prompt);
      HeardJoin(start, heard, events);
      CapturedJoin(config, id, heard, events);
    }

    /** A turn on a ready connection; any failure closes it and forgets the conversation. */
    method SendAndAwait(prompt: string)
      returns (result: Result<Response, Failure>, ghost sent: seq<Message>, ghost events: seq<Event>)
      requires Valid() && websocket.Some?
      modifies this
      ensures Valid()
      ensures TurnMessages(log) == TurnMessages(old(log)) + sent && sent <= Turn(prompt)
      ensures forall m :: m in sent ==> PayloadSize(config, m) <= config.maxEventBytes
      ensures Heard(old(incoming), events)
      ensures result.Err? ==> UnderWay(result.error) && websocket.None? && conversationId.None?
      ensures result.Err? ==>
                TurnStops(config, hasSink, old(sends), prompt, old(incoming), events, result.error)
      ensures result == Err(SinkFailed) ==> false in old(sinkReturns)
      ensures result.Ok? ==>
                && Deliverable(config, old(sends), prompt)
                && websocket.Some? && sent == Turn(prompt)
                && result.value.status in {None, Some("completed")}
                && CompletedBy(config.limits, events, result.value)
                && Tracking(old(incoming), old(conversationId), events)
      ensures result.Ok? && hasSink ==> Relayed(old(sunk), sunk, result.value.transcript)
    {
      events := [];
      var delivered;
      delivered, sent := SendTurn(prompt);
      if !delivered {
        conversationId := None;
        Close();
        return Err(Ambiguous), sent, events;
      }
      var collector := new ResponseCollector(config.limits);
      result, events := AwaitResponse(collector);
      if result.Err? {
        conversationId := None;
        Close();
      }
    }

    /** One message of a turn, sent at most once. */
    method SendOnce(message: Message) returns (delivered: bool, ghost sent: seq<Message>)
      requires Valid() && websocket.Some? && !message.SessionUpdate?
      modifies `sends, `log
      ensures Consistent()
      ensures TurnMessages(log) == TurnMessages(old(log)) + sent && sent <= [message]
      ensures forall m :: m in sent ==> PayloadSize(config, m) <= config.maxEventBytes
      ensures delivered <==> Sending(config, true, old(sends), message).None?
      ensures delivered ==> sent == [message] && sends == Rest(old(sends))
    {
      var failure;
      failure, sent := SendEvent(message);
      return failure.None?, sent;
    }

    method SendTurn(prompt: string) returns (delivered: bool, ghost sent: seq<Message>)
      requires Valid() && websocket.Some?
      modifies `sends, `log
      ensures Consistent()
      ensures TurnMessages(log) == TurnMessages(old(log)) + sent && sent <= Turn(prompt)
      ensures forall m :: m in sent ==> PayloadSize(config, m) <= config.maxEventBytes
      ensures delivered ==> sent == Turn(prompt)
      ensures delivered <==> Deliverable(config, old(sends), prompt)
    {
      delivered, sent := SendOnce(UserItem(prompt));
      if !delivered {
        return false, sent;
      }
      ghost var request;
      delivered, request := SendOnce(ResponseRequest);
      sent := sent + request;
    }

    /**
     The wait for a turn's response: events go to the collector and accepted text to the sink until
     a response completes or anything goes wrong.
     */
    method AwaitResponse(collector: ResponseCollector)
      returns (result: Result<Response, Failure>, ghost events: seq<Event>)
      requires Valid() && websocket.Some?
      requires collector.limits == config.limits && collector.View() == INITIAL
      modifies `incoming, `websocket, `sessionReady, `conversationId, `log, `sunk, `sinkReturns, collector
      ensures Consistent() && TurnMessages(log) == TurnMessages(old(log))
      ensures Heard(old(incoming), events)
      ensures result.Err? ==>
                UnderWay(result.error) && AwaitStops(config.limits, hasSink, old(incoming), events, result.error)
      ensures result == Err(SinkFailed) ==> false in old(sinkReturns)
      ensures result.Ok? ==>
                && Valid() && websocket.Some? && Tracking(old(incoming), old(conversationId), events)
                && result.value.status in {None, Some("completed")}
                && CompletedBy(config.limits, events, result.value)
      ensures result.Ok? && hasSink ==> Relayed(old(sunk), sunk, result.value.transcript)
      ensures !hasSink ==> sunk == old(sunk)
    {
      events := [];
      assert sunk == old(sunk) + [];
      while true
        invariant Valid() && websocket.Some? && TurnMessages(log) == TurnMessages(old(log))
        invariant Tracking(old(incoming), old(conversationId), events)
        invariant Gathered(collector, events, old(sunk))
        invariant false in sinkReturns ==> false in old(sinkReturns)
        decreases |incoming|
      {
        var step;
        step, events := AwaitOne(collector, old(incoming), old(conversationId), events, old(sunk));
        if step.Err? {
          return Err(step.error), events;
        }
        if step.value.Some? {
          return Ok(step.value.value), events;
        }
      }
    }

    /** One pass of that wait; `more` are the events with the one it received. */
    method AwaitOne(
      collector: ResponseCollector, ghost start: seq<Incoming>, ghost id: Option<string>, ghost events: seq<Event>,
      ghost before: seq<string>)
      returns (step: Result<Option<Response>, Failure>, ghost more: seq<Event>)
      requires Valid() && websocket.Some? && Tracking(start, id, events) && Gathered(collector, events, before)
      modifies `incoming, `websocket, `sessionReady, `conversationId, `log, `sunk, `sinkReturns, collector
      ensures Consistent() && TurnMessages(log) == TurnMessages(old(log)) && Heard(start, more)
      ensures step.Err? ==>
                UnderWay(step.error) && AwaitStops(config.limits, hasSink, start, more, step.error)
      ensures step == Err(SinkFailed) || false in sinkReturns ==> false in old(sinkReturns)
      ensures step.Ok? ==>
                Valid() && websocket.Some? && Tracking(start, id, more) && |incoming| < |old(incoming)|
      ensures step.Ok? && step.value.None? ==> Gathered(collector, more, before)
      ensures step.Ok? && step.value.Some? ==>
                && step.value.value.status in {None, Some("completed")}
                && CompletedBy(config.limits, more, step.value.value)
                && (hasSink ==> Relayed(before, sunk, step.value.value.transcript))
      ensures !hasSink ==> sunk == old(sunk)
    {
      more := events;
      var event := HearNext(start, id, events);
      if event.Err? {
        return Err(event.error), more;
      }
      more := events + [event.value];
      var handled := HandleEvent(collector, event.value, events, before);
      return handled, more;
    }

    /** The events so far completed nothing, and the sink has exactly the text collected. */
    ghost predicate Gathered(collector: ResponseCollector, events: seq<Event>, before: seq<string>)
      reads this, collector
    {
      && collector.limits == config.limits
      && collector.View() == After(config.limits, events, |events|)
      && Uncompleted(config.limits, events)
      && sunk == before + if hasSink then collector.transcriptParts else []
    }

    /** One event to the collector, and its text to the sink. */
    method HandleEvent(collector: ResponseCollector, event: Event, ghost events: seq<Event>, ghost before: seq<string>)
      returns (result: Result<Option<Response>, Failure>)
      requires Gathered(collector, events, before)
      modifies `sunk, `sinkReturns, collector
      ensures result.Err? ==>
                UnderWay(result.error) && HandlingStops(config.limits, hasSink, events + [event], result.error)
      ensures result == Err(SinkFailed) || false in sinkReturns ==> false in old(sinkReturns)
      ensures result.Ok? && result.value.None? ==> Gathered(collector, events + [event], before)
      ensures result.Ok? && result.value.Some? ==>
                && result.value.value.status in {None, Some("completed")}
                && CompletedBy(config.limits, events + [event], result.value.value)
                && (hasSink ==> Relayed(before, sunk, result.value.value.transcript))
      ensures !hasSink ==> sunk == old(sunk)
    {
      var outcome := ConsumeNext(collector, event, events);
      if outcome.Err? {
        return Err(Refused(outcome.error));
      }
      if hasSink && event.kind == TextDelta {
        var delivered := Deliver(event.text.value);
        if !delivered {
          return Err(SinkFailed);
        }
      }
      if outcome.value.Some? && outcome.value.value.status !in {None, Some("completed")} {
        return Err(Unfinished);
      }
      return Ok(outcome.value);
    }

    method ConsumeNext(collector: ResponseCollector, event: Event, ghost events: seq<Event>) returns (outcome: Outcome)
      requires collector.limits == config.limits
      requires collector.View() == After(config.limits, events, |events|) && Uncompleted(config.limits, events)
      modifies collector
      ensures outcome.Err? ==> OutcomeAt(config.limits, events + [event], |events|) == outcome
      ensures outcome.Ok? && outcome.value.None? ==>
                && collector.View() == After(config.limits, events + [event], |events| + 1)
                && Uncompleted(config.limits, events + [event])
                && (if event.kind == TextDelta then
                      event.text.Ok? && collector.transcriptParts == old(collector.transcriptParts) + [event.text.value]
                    else collector.transcriptParts == old(collector.transcriptParts))
      ensures outcome.Ok? && outcome.value.Some? ==>
                && CompletedBy(config.limits, events + [event], outcome.value.value)
                && event.kind != TextDelta
                && outcome.value.value.transcript == Join(old(collector.transcriptParts))
    {
      outcome := collector.Consume(event);
      OneMore(config.limits, events, event);
      if outcome.Ok? {
        NextEvent(config.limits, events, event, collector.View(), outcome);
      }
    }

    /** One call of the transcript sink. */
    method Deliver(text: string) returns (returned: bool)
      modifies `sunk, `sinkReturns
      ensures sunk == old(sunk) + if returned then [text] else []
      ensures returned == (old(sinkReturns) == [] || old(sinkReturns)[0]) && sinkReturns == Rest(old(sinkReturns))
    {
      returned := sinkReturns == [] || sinkReturns[0];
      sinkReturns := if sinkReturns == [] then [] else sinkReturns[1..];
      if returned {
        sunk := sunk + [text];
      }
    }
  }

  /** The sink was given texts that join to the transcript. */
  ghost predicate Relayed(before: seq<string>, sunk: seq<string>, transcript: string) {
    exists texts :: sunk == before + texts && Join(texts) == transcript
  }

  ghost predicate NoneReady(events: seq<Event>) {
    forall k :: 0 <= k < |events| ==> events[k].kind != SessionUpdated
  }

  /** The first session.updated is the last event. */
  ghost predicate EndsReady(events: seq<Event>) {
    events != [] && events[|events| - 1].kind == SessionUpdated && NoneReady(events[..|events| - 1])
  }

  lemma {:induction false} ReadyOrNot(events: seq<Event>, event: Event)
    requires NoneReady(events)
    ensures if event.kind == SessionUpdated then EndsReady(events + [event]) else NoneReady(events + [event])
  {
    assert (events + [event])[..|events|] == events;
  }

  /** No event so far completed a response. */
  ghost predicate Uncompleted(limits: Limits, events: seq<Event>) {
    forall k :: 0 <= k < |events| ==> !Completes(limits, events, k)
  }

  /** The last event is the first to complete a response, and the response is that one. */
  ghost predicate CompletedBy(limits: Limits, events: seq<Event>, response: Response) {
    && events != []
    && OutcomeAt(limits, events, |events| - 1) == Ok(Some(response))
    && forall k :: 0 <= k < |events| - 1 ==> !Completes(limits, events, k)
  }

  lemma {:induction false} AfterPrefix(limits: Limits, events: seq<Event>, more: seq<Event>, n: nat)
    requires n <= |events|
    ensures After(limits, events + more, n) == After(limits, events, n)
  {
    if n > 0 {
      AfterPrefix(limits, events, more, n - 1);
    }
  }

  lemma {:induction false} OneMore(limits: Limits, events: seq<Event>, event: Event)
    ensures var longer := events + [event];
            && After(limits, longer, |longer|) == Step(limits, After(limits, events, |events|), event).0
            && OutcomeAt(limits, longer, |events|) == Step(limits, After(limits, events, |events|), event).1
            && forall k :: 0 <= k < |events| ==> (Completes(limits, longer, k) <==> Completes(limits, events, k))
  {
    var longer := events + [event];
    AfterPrefix(limits, events, [event], |events|);
    forall k | 0 <= k < |events| ensures OutcomeAt(limits, longer, k) == OutcomeAt(limits, events, k) {
      AfterPrefix(limits, events, [event], k);
    }
  }

  /** An accepted event adds its text, and the response completed by one has all the text before it. */
  lemma {:induction false} AcceptedText(limits: Limits, s: State, event: Event, next: State, outcome: Outcome)
    requires (next, outcome) == Step(limits, s, event) && outcome.Ok?
    ensures event.kind == TextDelta ==> event.text.Ok?
    ensures outcome.value.None? ==> next.transcriptParts == s.transcriptParts + NewText(event, outcome)
    ensures outcome.value.Some? ==>
              event.kind == ResponseDone && outcome.value.value.transcript == Join(s.transcriptParts)
  {
    assert s.transcriptParts + [] == s.transcriptParts;
  }

  lemma {:induction false} NextEvent(limits: Limits, events: seq<Event>, event: Event, next: State, outcome: Outcome)
    requires (next, outcome) == Step(limits, After(limits, events, |events|), event)
    requires Uncompleted(limits, events) && outcome.Ok?
    ensures var parts := After(limits, events, |events|).transcriptParts;
            if outcome.value.None? then
              && next == After(limits, events + [event], |events| + 1)
              && Uncompleted(limits, events + [event])
              && (event.kind == TextDelta ==> event.text.Ok? && next.transcriptParts == parts + [event.text.value])
              && (event.kind != TextDelta ==> next.transcriptParts == parts)
            else
              && CompletedBy(limits, events + [event], outcome.value.value)
              && event.kind != TextDelta && outcome.value.value.transcript == Join(parts)
  {
    OneMore(limits, events, event);
    AcceptedText(limits, After(limits, events, |events|), event, next, outcome);
  }

  // ----- Whole runs -----

  datatype Command = DoConnect | DoTurn(prompt: string) | DoClose

  /** What a call may send of its turn: nothing, the item, or the item and its response request. */
  function MaySend(command: Command): seq<Message> {
    if command.DoTurn? then Turn(command.prompt) else []
  }

  /** The messages are, call by call, what each may send: the beginning of its turn. */
  ghost predicate FromCalls(messages: seq<Message>, commands: seq<Command>, n: nat)
    requires n <= |commands|
    decreases n
  {
    if n == 0 then messages == []
    else
      exists before, sent ::
        messages == before + sent && sent <= MaySend(commands[n - 1]) && FromCalls(before, commands, n - 1)
  }

  lemma {:induction false} OneMoreCall(messages: seq<Message>, commands: seq<Command>, n: nat, sent: seq<Message>)
    requires n < |commands| && FromCalls(messages, commands, n) && sent <= MaySend(commands[n])
    ensures FromCalls(messages + sent, commands, n + 1)
  {
  }

  method Obey(client: XaiVoiceClient, command: Command) returns (ghost sent: seq<Message>)
    requires client.Valid()
    modifies client
    ensures client.Valid()
    ensures TurnMessages(client.log) == TurnMessages(old(client.log)) + sent && sent <= MaySend(command)
  {
    sent := [];
    match command {
      case DoConnect =>
        ghost var heard;
        var failure;
        failure, heard := client.Connect();
      case DoTurn(prompt) =>
        var result;
        ghost var heard, events;
        result, sent, heard, events := client.RunTurn(prompt);
      case DoClose =>
        client.Close();
    }
  }

  /**
   Any sequence of calls, whatever the network answers: turn messages only on ready sockets, each
   turn's messages at most once and in order, and no socket left open but the client's own.
   */
  method Drive(client: XaiVoiceClient, commands: seq<Command>)
    requires client.Valid() && client.log == []
    modifies client
    ensures client.Valid() && TurnsOnReady(client.log) && NoneLeftOpen(client.log, client.websocket)
    ensures FromCalls(TurnMessages(client.log), commands, |commands|)
  {
    var k := 0;
    while k < |commands|
      invariant 0 <= k <= |commands|
      invariant client.Valid() && FromCalls(TurnMessages(client.log), commands, k)
    {
      ghost var messages := TurnMessages(client.log);
      ghost var sent := Obey(client, commands[k]);
      OneMoreCall(messages, commands, k, sent);
      k := k + 1;
    }
    ReplaySafe(client.log);
  }
}

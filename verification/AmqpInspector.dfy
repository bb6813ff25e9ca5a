/**
 The channel-aware AMQP observer: per-channel queues of unanswered synchronous methods, and
 method/header/body assembly per direction and channel.
 */
module AmqpInspector {
  import opened Wrappers
  import opened Bytes
  import opened AmqpMethods


  datatype Direction = ClientToServer | ServerToClient

  /** A method and the time it was seen, which tells apart two requests with the same bytes. */
  datatype Event = Event(frame: Frame, info: Info, started: nat)

  datatype Key = Key(direction: Direction, channel: nat)

  /** A message being assembled; `request` is the basic.get it answers. */
  datatype Content = Content(event: Event, request: Option<Event>, bodySize: nat, received: nat, capture: seq<byte>, frameBytes: nat)

  datatype Problem =
    | NoProblem
    | Superseded
    | BadHeader(error: HeaderError)
    | WrongLength
    | UnexpectedHeader
    | UnexpectedBody
    | UnknownFrame
    | Closed

  datatype Record =
    | Rpc(request: Event, response: Option<Event>, problem: Problem)
    | Message(content: Content, problem: Problem)
    | Single(direction: Direction, event: Event, problem: Problem)

  datatype State = State(pending: map<nat, seq<Event>>, content: map<Key, Content>, records: seq<Record>)

  const START: State := State(map[], map[], [])

  function EventOf(frame: Frame, now: nat): Event {
    Event(frame, InspectMethod(frame), now)
  }

  // ----- the observer as a function ------------------------------------------------------------

  function PendingOn(s: State, channel: nat): seq<Event> {
    if channel in s.pending then s.pending[channel] else []
  }

  /** The position of the oldest request that a response answers. */
  function FindRequest(queue: seq<Event>, response: Info): (index: nat)
    ensures index <= |queue|
    ensures index < |queue| ==> Answers(queue[index].info.expected, response)
    ensures forall i :: 0 <= i < index ==> !Answers(queue[i].info.expected, response)
  {
    if queue == [] || Answers(queue[0].info.expected, response) then 0
    else 1 + FindRequest(queue[1..], response)
  }

  function Enqueue(s: State, event: Event): State {
    s.(pending := s.pending[event.frame.channel := PendingOn(s, event.frame.channel) + [event]])
  }

  /** The oldest matching request leaves its queue; the others keep their order. */
  function Take(s: State, channel: nat, response: Info): (State, Option<Event>) {
    var queue := PendingOn(s, channel);
    var index := FindRequest(queue, response);
    if index == |queue| then (s, None)
    else (s.(pending := s.pending[channel := queue[..index] + queue[index + 1..]]), Some(queue[index]))
  }

  function Emit(s: State, record: Record): State {
    s.(records := s.records + [record])
  }

  function Prepare(s: State, frame: Frame, now: nat): (State, bool) {
    if frame.typeID != FRAME_METHOD || !Synchronous(InspectMethod(frame)) then (s, false)
    else (Enqueue(s, EventOf(frame, now)), true)
  }

  function Append(content: Content, frame: Frame): Content {
    content.(
      received := (content.received + |frame.payload|) % Pow256(8),
      frameBytes := content.frameBytes + |frame.raw|,
      capture := if |content.capture| < CAPTURE_LIMIT then
                   content.capture + frame.payload[..Min(CAPTURE_LIMIT - |content.capture|, |frame.payload|)]
                 else content.capture)
  }

  /** A message starts with its method; the reply to a get, when the get was sent. */
  function Begun(event: Event, request: Option<Event>): Content {
    Content(if request.Some? then event.(started := request.value.started) else event, request, 0, 0, [], |event.frame.raw|)
  }

  function ObserveMethod(s: State, key: Key, event: Event): State {
    if event.info.carriesContent then
      var s1 := if key in s.content then Emit(s, Message(s.content[key], Superseded)) else s;
      if key.direction == ServerToClient && event.info.classID == 60 && event.info.methodID == 71 then
        var (s2, request) := Take(s1, key.channel, event.info);
        s2.(content := s2.content[key := Begun(event, request)])
      else s1.(content := s1.content[key := Begun(event, None)])
    else if key.direction == ClientToServer && Synchronous(event.info) then Enqueue(s, event)
    else if key.direction == ServerToClient then
      var (s1, request) := Take(s, key.channel, event.info);
      Emit(s1, if request.Some? then Rpc(request.value, Some(event), NoProblem)
               else Single(key.direction, event, NoProblem))
    else Emit(s, Single(key.direction, event, NoProblem))
  }

  function FrameProblem(s: State, direction: Direction, frame: Frame, now: nat, problem: Problem): State {
    Emit(s, Single(direction, Event(frame, UNKNOWN, now), problem))
  }

  function ObserveHeader(s: State, key: Key, frame: Frame, now: nat): State {
    if key !in s.content then FrameProblem(s, key.direction, frame, now, UnexpectedHeader)
    else
      match InspectContentHeader(frame)
      case Err(error) => Emit(s.(content := s.content - {key}), Message(s.content[key], BadHeader(error)))
      case Ok(size) =>
        var content := s.content[key].(bodySize := size, frameBytes := s.content[key].frameBytes + |frame.raw|);
        if size == 0 then Emit(s.(content := s.content - {key}), Message(content, NoProblem))
        else s.(content := s.content[key := content])
  }

  function ObserveBody(s: State, key: Key, frame: Frame, now: nat): State {
    if key !in s.content || s.content[key].bodySize == 0 then
      FrameProblem(s, key.direction, frame, now, UnexpectedBody)
    else
      var content := Append(s.content[key], frame);
      if content.received >= content.bodySize then
        Emit(s.(content := s.content - {key}),
             Message(content, if content.received != content.bodySize then WrongLength else NoProblem))
      else s.(content := s.content[key := content])
  }

  function Observe(s: State, direction: Direction, frame: Frame, now: nat): State {
    var key := Key(direction, frame.channel);
    if frame.typeID == FRAME_HEARTBEAT then s
    else if frame.typeID == FRAME_METHOD then ObserveMethod(s, key, EventOf(frame, now))
    else if frame.typeID == FRAME_HEADER then ObserveHeader(s, key, frame, now)
    else if frame.typeID == FRAME_BODY then ObserveBody(s, key, frame, now)
    else FrameProblem(s, direction, frame, now, UnknownFrame)
  }

  // ----- runs ----------------------------------------------------------------------------------

  /** What the relays tell the observer, and when. */
  datatype Input =
    | Prepared(frame: Frame, now: nat)
    | Observed(direction: Direction, frame: Frame, now: nat)

  function Step(s: State, input: Input): State {
    match input
    case Prepared(frame, now) => Prepare(s, frame, now).0
    case Observed(direction, frame, now) => Observe(s, direction, frame, now)
  }

  function Run(s: State, inputs: seq<Input>): State
    decreases |inputs|
  {
    if inputs == [] then s else Run(Step(s, inputs[0]), inputs[1..])
  }

  // ----- channels ------------------------------------------------------------------------------

  function ChannelOf(record: Record): nat {
    match record
    case Rpc(request, _, _) => request.frame.channel
    case Message(content, _) => content.event.frame.channel
    case Single(_, event, _) => event.frame.channel
  }

  function OnChannel(records: seq<Record>, channel: nat): seq<Record> {
    if records == [] then []
    else
      var last := records[|records| - 1];
      OnChannel(records[..|records| - 1], channel) + (if ChannelOf(last) == channel then [last] else [])
  }

  function ContentAt(s: State, key: Key): Option<Content> {
    if key in s.content then Some(s.content[key]) else None
  }

  predicate QueueFiled(queue: seq<Event>, channel: nat) {
    forall i :: 0 <= i < |queue| ==> queue[i].frame.channel == channel
  }

  predicate ContentFiled(content: Option<Content>, channel: nat) {
    content.Some? ==>
      && content.value.event.frame.channel == channel
      && (content.value.request.Some? ==> content.value.request.value.frame.channel == channel)
  }

  /** Every queued request and every open message is filed under its own channel. */
  ghost predicate Filed(s: State) {
    && (forall channel: nat :: QueueFiled(PendingOn(s, channel), channel))
    && (forall key: Key :: ContentFiled(ContentAt(s, key), key.channel))
  }

  // ----- shutdown ------------------------------------------------------------------------------

  function Failures(queue: seq<Event>): seq<Record> {
    if queue == [] then [] else Failures(queue[..|queue| - 1]) + [Rpc(queue[|queue| - 1], None, Closed)]
  }

  /** The record of a message that the shutdown cuts short, if there is one. */
  function CutShort(s: State, key: Key): seq<Record> {
    if key in s.content then [Message(s.content[key], Closed)] else []
  }

  /** What a shutdown leaves on one channel: failed requests in order, then the open messages in either order. */
  predicate ShutDownOn(before: State, after: State, channel: nat) {
    var kept := OnChannel(before.records, channel) + Failures(PendingOn(before, channel));
    var sent, received := CutShort(before, Key(ClientToServer, channel)), CutShort(before, Key(ServerToClient, channel));
    || OnChannel(after.records, channel) == kept + sent + received
    || OnChannel(after.records, channel) == kept + received + sent
  }

  ghost predicate ShutDown(before: State, after: State) {
    && after.pending == map[] && after.content == map[]
    && forall channel: nat :: ShutDownOn(before, after, channel)
  }

  lemma NoFailures()
    ensures Failures([]) == []
  {
  }

  lemma {:induction false} FailuresOnChannel(queue: seq<Event>, channel: nat)
    requires forall i :: 0 <= i < |queue| ==> queue[i].frame.channel == channel
    ensures forall c: nat :: OnChannel(Failures(queue), c) == if c == channel then Failures(queue) else []
  {
    if queue != [] {
      var before := queue[..|queue| - 1];
      FailuresOnChannel(before, channel);
      var last := Rpc(queue[|queue| - 1], None, Closed);
      assert Failures(queue)[..|Failures(queue)| - 1] == Failures(before);
    }
  }

  lemma {:induction false} OnChannelConcat(a: seq<Record>, b: seq<Record>, channel: nat)
    ensures OnChannel(a + b, channel) == OnChannel(a, channel) + OnChannel(b, channel)
  {
    if b == [] {
      assert a + b == a;
    } else {
      assert (a + b)[..|a + b| - 1] == a + b[..|b| - 1];
      OnChannelConcat(a, b[..|b| - 1], channel);
    }
  }

  // ----- the inspector object ------------------------------------------------------------------

  class Inspector {
    var pending: map<nat, seq<Event>>
    var content: map<Key, Content>
    var records: seq<Record>

    ghost function View(): State
      reads this
    {
      State(pending, content, records)
    }

    constructor ()
      ensures View() == START
    {
      pending, content, records := map[], map[], [];
    }

    method PrepareRequest(frame: Frame, now: nat) returns (prepared: bool)
      modifies this
      ensures (View(), prepared) == Prepare(old(View()), frame, now)
    {
      if frame.typeID != FRAME_METHOD {
        return false;
      }
      var info := InspectMethod(frame);
      if info.expected.0 == 0 || info.noWait {
        return false;
      }
      Push(Event(frame, info, now));
      return true;
    }

    method Push(event: Event)
      modifies this`pending
      ensures View() == Enqueue(old(View()), event)
    {
      var channel := event.frame.channel;
      pending := pending[channel := (if channel in pending then pending[channel] else []) + [event]];
    }

    method Record(record: Record)
      modifies this`records
      ensures View() == Emit(old(View()), record)
    {
      records := records + [record];
    }

    method TakePending(channel: nat, response: Info) returns (request: Option<Event>)
      modifies this`pending
      ensures (View(), request) == Take(old(View()), channel, response)
    {
      var queue := if channel in pending then pending[channel] else [];
      ghost var oldest := FindRequest(queue, response);
      for index := 0 to |queue|
        invariant index <= oldest
      {
        if Answers(queue[index].info.expected, response) {
          pending := pending[channel := queue[..index] + queue[index + 1..]];
          return Some(queue[index]);
        }
      }
      return None;
    }

    method ObserveFrame(direction: Direction, frame: Frame, now: nat)
      modifies this
      ensures View() == Observe(old(View()), direction, frame, now)
    {
      if frame.typeID == FRAME_HEARTBEAT {
        return;
      }
      var key := Key(direction, frame.channel);
      if frame.typeID == FRAME_METHOD {
        MethodFrame(key, Event(frame, InspectMethod(frame), now));
      } else if frame.typeID == FRAME_HEADER {
        HeaderFrame(key, frame, now);
      } else if frame.typeID == FRAME_BODY {
        BodyFrame(key, frame, now);
      } else {
        Record(Single(direction, Event(frame, UNKNOWN, now), UnknownFrame));
      }
    }

    method MethodFrame(key: Key, event: Event)
      requires key.channel == event.frame.channel
      modifies this
      ensures View() == ObserveMethod(old(View()), key, event)
    {
      if event.info.carriesContent {
        if key in content {
          Record(Message(content[key], Superseded));
        }
        var state := Content(event, None, 0, 0, [], |event.frame.raw|);
        if key.direction == ServerToClient && event.info.classID == 60 && event.info.methodID == 71 {
          var request := TakePending(key.channel, event.info);
          state := state.(request := request);
          if request.Some? {
            state := state.(event := event.(started := request.value.started));
          }
        }
        content := content[key := state];
        return;
      }
      if key.direction == ClientToServer && event.info.expected.0 != 0 && !event.info.noWait {
        Push(event);
        return;
      }
      if key.direction == ServerToClient {
        var request := TakePending(key.channel, event.info);
        if request.Some? {
          Record(Rpc(request.value, Some(event), NoProblem));
          return;
        }
      }
      Record(Single(key.direction, event, NoProblem));
    }

    method HeaderFrame(key: Key, frame: Frame, now: nat)
      modifies this
      ensures View() == ObserveHeader(old(View()), key, frame, now)
    {
      if key !in content {
        Record(Single(key.direction, Event(frame, UNKNOWN, now), UnexpectedHeader));
        return;
      }
      var state := content[key];
      match InspectContentHeader(frame) {
        case Err(error) =>
          content := content - {key};
          Record(Message(state, BadHeader(error)));
        case Ok(bodySize) =>
          state := state.(bodySize := bodySize, frameBytes := state.frameBytes + |frame.raw|);
          if bodySize == 0 {
            content := content - {key};
            Record(Message(state, NoProblem));
          } else {
            content := content[key := state];
          }
      }
    }

    method BodyFrame(key: Key, frame: Frame, now: nat)
      modifies this
      ensures View() == ObserveBody(old(View()), key, frame, now)
    {
      if key !in content || content[key].bodySize == 0 {
        Record(Single(key.direction, Event(frame, UNKNOWN, now), UnexpectedBody));
        return;
      }
      var state := content[key];
      state := state.(received := (state.received + |frame.payload|) % Pow256(8),
                      frameBytes := state.frameBytes + |frame.raw|);
      if |state.capture| < CAPTURE_LIMIT {
        var remaining := CAPTURE_LIMIT - |state.capture|;
        state := state.(capture := state.capture + frame.payload[..Min(remaining, |frame.payload|)]);
      }
      if state.received >= state.bodySize {
        content := content - {key};
        Record(Message(state, if state.received != state.bodySize then WrongLength else NoProblem));
      } else {
        content := content[key := state];
      }
    }

    /** Every unanswered request and every open message is recorded as failed; map order is arbitrary. */
    method FailPending()
      requires Filed(View())
      modifies this
      ensures ShutDown(old(View()), View())
    {
      hide OnChannel, Failures, ChannelOf;
      ghost var before := View();
      FailRequests();
      forall channel: nat ensures Closing(before, View(), channel) {
        ClosingStart(before, View(), channel);
      }
      while content != map[]
        invariant pending == map[]
        invariant content.Keys <= before.content.Keys
        invariant forall key <- content :: content[key] == before.content[key]
        invariant forall channel: nat :: Closing(before, View(), channel)
        decreases |content|
      {
        var key :| key in content;
        ghost var previous := View();
        Record(Message(content[key], Closed));
        content := content - {key};
        forall channel: nat ensures Closing(before, View(), channel) {
          ClosingStep(before, previous, View(), key, channel);
        }
      }
      forall channel: nat ensures ShutDownOn(before, View(), channel) {
        assert Closing(before, View(), channel);
      }
    }

    /** The requests of all channels, each channel's in order. */
    method FailRequests()
      requires Filed(View())
      modifies this`pending, this`records
      ensures pending == map[]
      ensures forall channel: nat :: OnChannel(records, channel)
                == OnChannel(old(records), channel) + Failures(PendingOn(old(View()), channel))
    {
      hide OnChannel, Failures, ChannelOf;
      ghost var before := View();
      forall c: nat ensures OnChannel(records, c) == OnChannel(records, c) + (if c in pending then [] else Failures([])) {
        NoFailures();
      }
      while pending != map[]
        invariant pending.Keys <= before.pending.Keys
        invariant forall channel <- pending :: pending[channel] == before.pending[channel]
        invariant forall channel: nat ::
            OnChannel(records, channel) == OnChannel(before.records, channel)
            + (if channel in pending then [] else Failures(PendingOn(before, channel)))
        decreases |pending|
      {
        var channel :| channel in pending;
        var queue := pending[channel];
        ghost var start := records;
        assert QueueFiled(PendingOn(before, channel), channel);
        FailQueue(queue);
        FailuresOnChannel(queue, channel);
        forall c: nat
          ensures OnChannel(records, c) == OnChannel(start, c) + (if c == channel then Failures(queue) else [])
        {
          OnChannelConcat(start, Failures(queue), c);
        }
        pending := pending - {channel};
      }
    }

    method FailQueue(queue: seq<Event>)
      modifies this`records
      ensures records == old(records) + Failures(queue)
    {
      for i := 0 to |queue|
        invariant records == old(records) + Failures(queue[..i])
      {
        assert queue[..i + 1][..i] == queue[..i];
        Record(Rpc(queue[i], None, Closed));
      }
      assert queue[..|queue|] == queue;
    }
  }

  /** Part-way through closing the messages of a channel. */
  predicate Closing(before: State, now: State, channel: nat) {
    var kept := OnChannel(before.records, channel) + Failures(PendingOn(before, channel));
    var sent := if Key(ClientToServer, channel) in now.content then [] else CutShort(before, Key(ClientToServer, channel));
    var received := if Key(ServerToClient, channel) in now.content then [] else CutShort(before, Key(ServerToClient, channel));
    || OnChannel(now.records, channel) == kept + sent + received
    || OnChannel(now.records, channel) == kept + received + sent
  }

  lemma ClosingStart(before: State, now: State, channel: nat)
    requires now.content == before.content
    requires OnChannel(now.records, channel) == OnChannel(before.records, channel) + Failures(PendingOn(before, channel))
    ensures Closing(before, now, channel)
  {
    var kept := OnChannel(now.records, channel);
    assert kept + [] + [] == kept;
  }

  lemma ClosingStep(before: State, previous: State, now: State, key: Key, channel: nat)
    requires Filed(before) && key in previous.content && key in before.content
    requires previous.content[key] == before.content[key]
    requires Closing(before, previous, channel)
    requires now.content == previous.content - {key}
    requires now.records == previous.records + [Message(before.content[key], Closed)]
    ensures Closing(before, now, channel)
  {
    hide Failures;
    assert now.records[..|now.records| - 1] == previous.records;
    if key.channel == channel {
      var last := [Message(before.content[key], Closed)];
      var was, grown := OnChannel(previous.records, channel), OnChannel(now.records, channel);
      assert grown == was + last;
      var kept := OnChannel(before.records, channel) + Failures(PendingOn(before, channel));
      var other := Key(if key.direction == ClientToServer then ServerToClient else ClientToServer, channel);
      var done := if other in now.content then [] else CutShort(before, other);
      assert kept + [] + done == kept + done && kept + done + [] == kept + done;
      assert was == kept + done;
      assert CutShort(before, key) == last;
      assert kept + last + [] == kept + last;
      assert kept + [] + last == kept + last;
    }
  }
}

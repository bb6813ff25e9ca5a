/** Whole-run properties of the AMQP observer. */
module AmqpTheorems {
  import opened Wrappers
  import opened Bytes
  import opened AmqpMethods
  import opened AmqpInspector

  // ----- one channel at a time -----------------------------------------------------------------

  /** What a frame does to its channel's queue and its key's message, and what it records. */
  datatype Effect = Effect(queue: seq<Event>, content: Option<Content>, emitted: seq<Record>)

  function Found(queue: seq<Event>, index: nat): Option<Event> {
    if index < |queue| then Some(queue[index]) else None
  }

  function Without(queue: seq<Event>, index: nat): seq<Event> {
    if index < |queue| then queue[..index] + queue[index + 1..] else queue
  }

  function MethodEffect(queue: seq<Event>, content: Option<Content>, direction: Direction, event: Event): Effect {
    var index := FindRequest(queue, event.info);
    if event.info.carriesContent then
      var get := direction == ServerToClient && event.info.classID == 60 && event.info.methodID == 71;
      Effect(if get then Without(queue, index) else queue,
             Some(Begun(event, if get then Found(queue, index) else None)),
             if content.Some? then [Message(content.value, Superseded)] else [])
    else if direction == ClientToServer then
      if Synchronous(event.info) then Effect(queue + [event], content, [])
      else Effect(queue, content, [Single(direction, event, NoProblem)])
    else
      match Found(queue, index)
      case Some(request) => Effect(Without(queue, index), content, [Rpc(request, Some(event), NoProblem)])
      case None => Effect(queue, content, [Single(direction, event, NoProblem)])
  }

  function HeaderEffect(queue: seq<Event>, content: Option<Content>, direction: Direction, frame: Frame, now: nat): Effect {
    match content
    case None => Effect(queue, None, [Single(direction, Event(frame, UNKNOWN, now), UnexpectedHeader)])
    case Some(open) =>
      match InspectContentHeader(frame)
      case Err(error) => Effect(queue, None, [Message(open, BadHeader(error))])
      case Ok(size) =>
        var sized := open.(bodySize := size, frameBytes := open.frameBytes + |frame.raw|);
        if size == 0 then Effect(queue, None, [Message(sized, NoProblem)]) else Effect(queue, Some(sized), [])
  }

  function BodyEffect(queue: seq<Event>, content: Option<Content>, direction: Direction, frame: Frame, now: nat): Effect {
    if content.None? || content.value.bodySize == 0 then
      Effect(queue, content, [Single(direction, Event(frame, UNKNOWN, now), UnexpectedBody)])
    else
      var grown := Append(content.value, frame);
      if grown.received < grown.bodySize then Effect(queue, Some(grown), [])
      else Effect(queue, None, [Message(grown, if grown.received != grown.bodySize then WrongLength else NoProblem)])
  }

  function EffectOf(queue: seq<Event>, content: Option<Content>, input: Input): Effect {
    match input
    case Prepared(frame, now) =>
      if frame.typeID == FRAME_METHOD && Synchronous(InspectMethod(frame)) then Effect(queue + [EventOf(frame, now)], content, [])
      else Effect(queue, content, [])
    case Observed(direction, frame, now) =>
      if frame.typeID == FRAME_HEARTBEAT then Effect(queue, content, [])
      else if frame.typeID == FRAME_METHOD then MethodEffect(queue, content, direction, EventOf(frame, now))
      else if frame.typeID == FRAME_HEADER then HeaderEffect(queue, content, direction, frame, now)
      else if frame.typeID == FRAME_BODY then BodyEffect(queue, content, direction, frame, now)
      else Effect(queue, content, [Single(direction, Event(frame, UNKNOWN, now), UnknownFrame)])
  }

  function KeyOf(input: Input): Key {
    Key(if input.Prepared? then ClientToServer else input.direction, input.frame.channel)
  }

  /** `after` is `before` with an effect on one key and nothing else changed. */
  ghost predicate Follows(before: State, after: State, key: Key, effect: Effect) {
    && PendingOn(after, key.channel) == effect.queue
    && ContentAt(after, key) == effect.content
    && after.records == before.records + effect.emitted
    && (forall c: nat :: c != key.channel ==> PendingOn(after, c) == PendingOn(before, c))
    && (forall k: Key :: k != key ==> ContentAt(after, k) == ContentAt(before, k))
  }


  lemma MethodFollows(s: State, key: Key, event: Event)
    requires key.channel == event.frame.channel
    ensures Follows(s, ObserveMethod(s, key, event), key,
                    MethodEffect(PendingOn(s, key.channel), ContentAt(s, key), key.direction, event))
  {
    hide Take, FindRequest, ObserveMethod, MethodEffect;
    if event.info.carriesContent {
      ContentMethodFollows(s, key, event);
    } else {
      PlainMethodFollows(s, key, event);
    }
  }

  lemma PlainMethodFollows(s: State, key: Key, event: Event)
    requires key.channel == event.frame.channel && !event.info.carriesContent
    ensures Follows(s, ObserveMethod(s, key, event), key,
                    MethodEffect(PendingOn(s, key.channel), ContentAt(s, key), key.direction, event))
  {
    hide Take, FindRequest;
    assert s.records + [] == s.records;
    TakeFollows(s, key.channel, event.info);
  }

  lemma ContentMethodFollows(s: State, key: Key, event: Event)
    requires key.channel == event.frame.channel && event.info.carriesContent
    ensures Follows(s, ObserveMethod(s, key, event), key,
                    MethodEffect(PendingOn(s, key.channel), ContentAt(s, key), key.direction, event))
  {
    hide Take, FindRequest;
    assert s.records + [] == s.records;
    var s1 := if key in s.content then Emit(s, Message(s.content[key], Superseded)) else s;
    var s2 := Take(s1, key.channel, event.info).0;
    TakeFollows(s1, key.channel, event.info);
    forall c: nat | c != key.channel
      ensures PendingOn(ObserveMethod(s, key, event), c) == PendingOn(s, c)
    {
      assert PendingOn(s2, c) == PendingOn(s1, c);
    }
  }

  lemma TakeFollows(s: State, channel: nat, response: Info)
    ensures var (after, request) := Take(s, channel, response);
            var index := FindRequest(PendingOn(s, channel), response);
            && request == Found(PendingOn(s, channel), index)
            && PendingOn(after, channel) == Without(PendingOn(s, channel), index)
            && (forall c: nat :: c != channel ==> PendingOn(after, c) == PendingOn(s, c))
            && after.content == s.content && after.records == s.records
  {
    hide FindRequest;
  }

  lemma HeaderFollows(s: State, key: Key, frame: Frame, now: nat)
    requires key.channel == frame.channel
    ensures Follows(s, ObserveHeader(s, key, frame, now), key,
                    HeaderEffect(PendingOn(s, key.channel), ContentAt(s, key), key.direction, frame, now))
  {
    hide InspectContentHeader;
    assert s.records + [] == s.records;
  }

  lemma BodyFollows(s: State, key: Key, frame: Frame, now: nat)
    requires key.channel == frame.channel
    ensures Follows(s, ObserveBody(s, key, frame, now), key,
                    BodyEffect(PendingOn(s, key.channel), ContentAt(s, key), key.direction, frame, now))
  {
    hide Append;
    assert s.records + [] == s.records;
  }

  /** The observer with its maps does exactly what the one-channel observer does. */
  lemma StepFollows(s: State, input: Input)
    ensures var key := KeyOf(input);
            Follows(s, Step(s, input), key, EffectOf(PendingOn(s, key.channel), ContentAt(s, key), input))
  {
    hide InspectMethod, ObserveMethod, ObserveHeader, ObserveBody, MethodEffect, HeaderEffect, BodyEffect;
    assert s.records + [] == s.records;
    if input.Observed? {
      var key := KeyOf(input);
      MethodFollows(s, key, EventOf(input.frame, input.now));
      HeaderFollows(s, key, input.frame, input.now);
      BodyFollows(s, key, input.frame, input.now);
    }
  }

  // ----- what every step keeps -----------------------------------------------------------------

  /** A queued request is what inspecting its frame gives. */
  predicate QueueSound(queue: seq<Event>, channel: nat) {
    QueueFiled(queue, channel) && forall i :: 0 <= i < |queue| ==> queue[i] == EventOf(queue[i].frame, queue[i].started)
  }

  /** Only a basic.get is answered by content. */
  predicate ContentSound(content: Option<Content>, channel: nat) {
    && ContentFiled(content, channel)
    && (content.Some? && content.value.request.Some? ==> content.value.request.value.info.expected == (60, 0))
  }

  predicate RecordSound(record: Record, channel: nat) {
    && ChannelOf(record) == channel
    && (record.Rpc? && record.response.Some? ==> Answers(record.request.info.expected, record.response.value.info))
  }

  ghost predicate Sound(s: State) {
    && (forall channel: nat :: QueueSound(PendingOn(s, channel), channel))
    && (forall key: Key :: ContentSound(ContentAt(s, key), key.channel))
  }

  /** Only basic.get expects get-ok. */
  lemma GetOkAnswersGet(frame: Frame, response: Info)
    requires response.classID == 60 && response.methodID == 71
    requires Answers(InspectMethod(frame).expected, response)
    ensures InspectMethod(frame).expected == (60, 0)
  {
    hide NoWait, BigEndian;
  }

  lemma AppendKeeps(content: Option<Content>, frame: Frame)
    ensures content.Some? ==>
              && Append(content.value, frame).event == content.value.event
              && Append(content.value, frame).request == content.value.request
  {
  }

  lemma EffectSound(queue: seq<Event>, content: Option<Content>, input: Input)
    requires QueueSound(queue, input.frame.channel) && ContentSound(content, input.frame.channel)
    ensures var e := EffectOf(queue, content, input);
            && QueueSound(e.queue, input.frame.channel) && ContentSound(e.content, input.frame.channel)
            && |e.emitted| <= 1
            && (e.emitted != [] ==> RecordSound(e.emitted[0], input.frame.channel))
  {
    hide InspectMethod, InspectContentHeader, Answers, Append, FindRequest, Synchronous;
    var info := InspectMethod(input.frame);
    AppendKeeps(content, input.frame);
    var index := FindRequest(queue, info);
    if index < |queue| && info.classID == 60 && info.methodID == 71 {
      GetOkAnswersGet(queue[index].frame, info);
    }
  }

  lemma StepKeepsSound(s: State, input: Input)
    requires Sound(s)
    ensures Sound(Step(s, input))
  {
    hide Step, EffectOf, QueueSound, ContentSound;
    var key := KeyOf(input);
    assert QueueSound(PendingOn(s, key.channel), key.channel) && ContentSound(ContentAt(s, key), key.channel);
    StepFollows(s, input);
    EffectSound(PendingOn(s, key.channel), ContentAt(s, key), input);
    forall k: Key ensures ContentSound(ContentAt(Step(s, input), k), k.channel) {
      assert ContentSound(ContentAt(s, k), k.channel);
    }
    forall c: nat ensures QueueSound(PendingOn(Step(s, input), c), c) {
      assert QueueSound(PendingOn(s, c), c);
    }
  }

  lemma {:induction false} RunKeepsSound(s: State, inputs: seq<Input>)
    requires Sound(s)
    ensures Sound(Run(s, inputs))
    decreases |inputs|
  {
    hide Sound, Step;
    if inputs != [] {
      StepKeepsSound(s, inputs[0]);
      RunKeepsSound(Step(s, inputs[0]), inputs[1..]);
    }
  }

  // ----- channels do not interfere -------------------------------------------------------------

  /** Everything the observer knows about one channel. */
  datatype Local = Local(pending: seq<Event>, sent: Option<Content>, received: Option<Content>, records: seq<Record>)

  function Project(s: State, channel: nat): Local {
    Local(PendingOn(s, channel), ContentAt(s, Key(ClientToServer, channel)), ContentAt(s, Key(ServerToClient, channel)),
          OnChannel(s.records, channel))
  }

  function InputsOn(inputs: seq<Input>, channel: nat): seq<Input>
    decreases |inputs|
  {
    if inputs == [] then []
    else if inputs[0].frame.channel == channel then [inputs[0]] + InputsOn(inputs[1..], channel)
    else InputsOn(inputs[1..], channel)
  }

  lemma EmittedOnChannel(records: seq<Record>, emitted: seq<Record>, channel: nat)
    requires |emitted| <= 1
    ensures OnChannel(records + emitted, channel)
         == OnChannel(records, channel) + (if emitted != [] && ChannelOf(emitted[0]) == channel then emitted else [])
  {
    hide ChannelOf;
    if emitted == [] {
      assert records + emitted == records;
    } else {
      assert (records + emitted)[..|records|] == records && emitted == [emitted[0]];
    }
  }

  /** A step on its own channel, seen from that channel. */
  lemma StepOnChannel(s: State, input: Input)
    requires Sound(s)
    ensures var key := KeyOf(input);
            var e := EffectOf(PendingOn(s, key.channel), ContentAt(s, key), input);
            && QueueSound(PendingOn(s, key.channel), key.channel) && ContentSound(ContentAt(s, key), key.channel)
            && Follows(s, Step(s, input), key, e)
            && OnChannel(Step(s, input).records, key.channel) == OnChannel(s.records, key.channel) + e.emitted
  {
    hide Step, EffectOf, OnChannel, QueueSound, ContentSound;
    var key := KeyOf(input);
    assert QueueSound(PendingOn(s, key.channel), key.channel) && ContentSound(ContentAt(s, key), key.channel);
    StepFollows(s, input);
    EffectSound(PendingOn(s, key.channel), ContentAt(s, key), input);
    EmittedOnChannel(s.records, EffectOf(PendingOn(s, key.channel), ContentAt(s, key), input).emitted, key.channel);
  }

  lemma StepElsewhere(s: State, input: Input, channel: nat)
    requires Sound(s) && input.frame.channel != channel
    ensures Project(Step(s, input), channel) == Project(s, channel)
  {
    hide Step, EffectOf, OnChannel, QueueSound, ContentSound;
    var key := KeyOf(input);
    StepOnChannel(s, input);
    var e := EffectOf(PendingOn(s, key.channel), ContentAt(s, key), input);
    EffectSound(PendingOn(s, key.channel), ContentAt(s, key), input);
    EmittedOnChannel(s.records, e.emitted, channel);
    assert OnChannel(s.records, channel) + [] == OnChannel(s.records, channel);
  }

  lemma StepLocal(a: State, b: State, input: Input)
    requires Sound(a) && Sound(b) && Project(a, input.frame.channel) == Project(b, input.frame.channel)
    ensures Project(Step(a, input), input.frame.channel) == Project(Step(b, input), input.frame.channel)
  {
    hide Step, EffectOf, OnChannel, QueueSound, ContentSound;
    StepOnChannel(a, input);
    StepOnChannel(b, input);
    var channel := input.frame.channel;
    var sent, received := Key(ClientToServer, channel), Key(ServerToClient, channel);
    assert ContentAt(a, sent) == ContentAt(b, sent) && ContentAt(a, received) == ContentAt(b, received);
    match KeyOf(input).direction {
      case ClientToServer => assert KeyOf(input) == sent;
      case ServerToClient => assert KeyOf(input) == received;
    }
  }

  /**
   Interleaving the frames of other channels changes nothing on a channel: from states that agree
   on it, a run and the run of that channel's frames alone end in states that agree on it.
   */
  lemma {:induction false} ChannelsDoNotInterfere(a: State, b: State, inputs: seq<Input>, channel: nat)
    requires Sound(a) && Sound(b) && Project(a, channel) == Project(b, channel)
    ensures Project(Run(a, inputs), channel) == Project(Run(b, InputsOn(inputs, channel)), channel)
    decreases |inputs|
  {
    hide Step, Project, Sound;
    if inputs != [] {
      var input := inputs[0];
      StepKeepsSound(a, input);
      StepKeepsSound(b, input);
      if input.frame.channel == channel {
        StepLocal(a, b, input);
        ChannelsDoNotInterfere(Step(a, input), Step(b, input), inputs[1..], channel);
        var own := InputsOn(inputs, channel);
        assert own[0] == input && own[1..] == InputsOn(inputs[1..], channel);
      } else {
        StepElsewhere(a, input, channel);
        ChannelsDoNotInterfere(Step(a, input), b, inputs[1..], channel);
      }
    }
  }

  lemma StartIsSound()
    ensures Sound(START)
  {
  }

  /** From the start: a channel's records are those of an observer that saw only that channel. */
  lemma RecordsOfChannelAlone(inputs: seq<Input>, channel: nat)
    ensures OnChannel(Run(START, inputs).records, channel)
         == OnChannel(Run(START, InputsOn(inputs, channel)).records, channel)
  {
    hide Run, OnChannel;
    StartIsSound();
    ChannelsDoNotInterfere(START, START, inputs, channel);
  }
}

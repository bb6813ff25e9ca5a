/** Every synchronous request is recorded exactly once. */
module AmqpAccounting {
  import opened Wrappers
  import opened Bytes
  import opened AmqpMethods
  import opened AmqpInspector
  import opened AmqpTheorems

  // ----- where requests are --------------------------------------------------------------------

  /** The request a record settles, if any. */
  function Settled(record: Record): seq<Event> {
    match record
    case Rpc(request, _, _) => [request]
    case Message(content, _) => Held(Some(content))
    case Single(_, _, _) => []
  }

  function SettledIn(records: seq<Record>): seq<Event> {
    if records == [] then [] else SettledIn(records[..|records| - 1]) + Settled(records[|records| - 1])
  }

  function Held(content: Option<Content>): seq<Event> {
    if content.Some? && content.value.request.Some? then [content.value.request.value] else []
  }

  /** The request an input puts into a queue. */
  function Enqueued(input: Input): seq<Event> {
    var event := EventOf(input.frame, input.now);
    if input.frame.typeID == FRAME_METHOD && Synchronous(event.info)
       && (input.Prepared? || (input.direction == ClientToServer && !event.info.carriesContent))
    then [event] else []
  }

  function EnqueuedOn(inputs: seq<Input>, channel: nat): seq<Event>
    decreases |inputs|
  {
    if inputs == [] then []
    else (if inputs[0].frame.channel == channel then Enqueued(inputs[0]) else []) + EnqueuedOn(inputs[1..], channel)
  }

  function Count(events: seq<Event>, event: Event): nat {
    multiset(events)[event]
  }

  lemma CountConcat(a: seq<Event>, b: seq<Event>, event: Event)
    ensures Count(a + b, event) == Count(a, event) + Count(b, event)
    ensures Count([], event) == 0
  {
  }

  /** How often a request is recorded, held by an open message, or still pending on a channel. */
  function Account(s: State, channel: nat, event: Event): nat {
    Count(SettledIn(OnChannel(s.records, channel)), event)
    + Count(Held(ContentAt(s, Key(ClientToServer, channel))), event)
    + Count(Held(ContentAt(s, Key(ServerToClient, channel))), event)
    + Count(PendingOn(s, channel), event)
  }

  lemma {:induction false} SettledConcat(a: seq<Record>, b: seq<Record>)
    ensures SettledIn(a + b) == SettledIn(a) + SettledIn(b)
  {
    if b == [] {
      assert a + b == a;
    } else {
      assert (a + b)[..|a + b| - 1] == a + b[..|b| - 1];
      SettledConcat(a, b[..|b| - 1]);
    }
  }

  lemma SettledOne(record: Record)
    ensures SettledIn([record]) == Settled(record) && SettledIn([]) == []
  {
    assert [record][..0] == [];
  }

  lemma WithoutOne(queue: seq<Event>, index: nat, event: Event)
    ensures Count(queue, event)
         == Count(Without(queue, index), event) + (if index < |queue| then Count([queue[index]], event) else 0)
  {
    if index < |queue| {
      assert queue == queue[..index] + [queue[index]] + queue[index + 1..];
    }
  }

  // ----- conservation --------------------------------------------------------------------------

  /** The request settled by what an effect records. */
  function SettledBy(e: Effect): seq<Event> {
    if e.emitted == [] then [] else Settled(e.emitted[0])
  }

  predicate Conserves(queue: seq<Event>, content: Option<Content>, e: Effect, enqueued: seq<Event>, event: Event) {
    && |e.emitted| <= 1
    && Count(SettledBy(e), event) + Count(Held(e.content), event) + Count(e.queue, event)
       == Count(Held(content), event) + Count(queue, event) + Count(enqueued, event)
  }

  lemma MethodConserves(queue: seq<Event>, content: Option<Content>, direction: Direction, replied: Event, event: Event)
    ensures Conserves(queue, content, MethodEffect(queue, content, direction, replied),
                      if direction == ClientToServer && !replied.info.carriesContent && Synchronous(replied.info) then [replied] else [],
                      event)
  {
    hide FindRequest, Synchronous, Without, Count;
    CountConcat(queue, [replied], event);
    WithoutOne(queue, FindRequest(queue, replied.info), event);
  }

  lemma ContentConserves(queue: seq<Event>, content: Option<Content>, direction: Direction, frame: Frame, now: nat, event: Event)
    ensures Conserves(queue, content, HeaderEffect(queue, content, direction, frame, now), [], event)
    ensures Conserves(queue, content, BodyEffect(queue, content, direction, frame, now), [], event)
  {
    hide InspectContentHeader, Append, Count;
    CountConcat([], [], event);
    AppendKeeps(content, frame);
  }

  lemma EffectConserves(queue: seq<Event>, content: Option<Content>, input: Input, event: Event)
    ensures Conserves(queue, content, EffectOf(queue, content, input), Enqueued(input), event)
  {
    hide InspectMethod, MethodEffect, HeaderEffect, BodyEffect, Synchronous, Count;
    CountConcat(queue, [EventOf(input.frame, input.now)], event);
    if input.Observed? {
      MethodConserves(queue, content, input.direction, EventOf(input.frame, input.now), event);
      ContentConserves(queue, content, input.direction, input.frame, input.now, event);
    }
  }

  lemma StepConserves(s: State, input: Input, channel: nat, event: Event)
    requires Sound(s)
    ensures Account(Step(s, input), channel, event)
         == Account(s, channel, event) + (if input.frame.channel == channel then Count(Enqueued(input), event) else 0)
  {
    hide Step, EffectOf, OnChannel, QueueSound, ContentSound, Held, Enqueued, SettledIn, Settled, Count;
    if input.frame.channel == channel {
      var key := KeyOf(input);
      StepOnChannel(s, input);
      EffectConserves(PendingOn(s, channel), ContentAt(s, key), input, event);
      var e := EffectOf(PendingOn(s, channel), ContentAt(s, key), input);
      SettledConcat(OnChannel(s.records, channel), e.emitted);
      SettledByEffect(e);
      CountConcat(SettledIn(OnChannel(s.records, channel)), SettledBy(e), event);
      match key.direction {
        case ClientToServer => assert key == Key(ClientToServer, channel);
        case ServerToClient => assert key == Key(ServerToClient, channel);
      }
    } else {
      StepElsewhere(s, input, channel);
      SameProjection(Step(s, input), s, channel);
    }
  }

  lemma SameProjection(a: State, b: State, channel: nat)
    requires Project(a, channel) == Project(b, channel)
    ensures PendingOn(a, channel) == PendingOn(b, channel)
    ensures ContentAt(a, Key(ClientToServer, channel)) == ContentAt(b, Key(ClientToServer, channel))
    ensures ContentAt(a, Key(ServerToClient, channel)) == ContentAt(b, Key(ServerToClient, channel))
    ensures OnChannel(a.records, channel) == OnChannel(b.records, channel)
  {
    hide PendingOn, ContentAt, OnChannel;
  }

  lemma SettledByEffect(e: Effect)
    requires |e.emitted| <= 1
    ensures SettledIn(e.emitted) == SettledBy(e)
  {
    if e.emitted != [] {
      assert e.emitted == [e.emitted[0]];
      SettledOne(e.emitted[0]);
    }
  }

  /** In every reachable state, a request is recorded, held or pending exactly as often as it was enqueued. */
  lemma {:induction false} RequestsConserved(s: State, inputs: seq<Input>, channel: nat, event: Event)
    requires Sound(s)
    ensures Account(Run(s, inputs), channel, event)
         == Account(s, channel, event) + Count(EnqueuedOn(inputs, channel), event)
    decreases |inputs|
  {
    hide Step, Account, Sound, Enqueued, Count;
    if inputs == [] {
      CountConcat([], [], event);
    } else {
      StepKeepsSound(s, inputs[0]);
      StepConserves(s, inputs[0], channel, event);
      RequestsConserved(Step(s, inputs[0]), inputs[1..], channel, event);
      CountConcat(if inputs[0].frame.channel == channel then Enqueued(inputs[0]) else [],
                  EnqueuedOn(inputs[1..], channel), event);
      CountConcat([], [], event);
    }
  }

  // ----- order ---------------------------------------------------------------------------------

  /** The events that expect a given response. */
  function Expecting(events: seq<Event>, expected: (nat, nat)): seq<Event> {
    if events == [] then []
    else
      var last := events[|events| - 1];
      Expecting(events[..|events| - 1], expected) + (if last.info.expected == expected then [last] else [])
  }

  lemma {:induction false} ExpectingConcat(a: seq<Event>, b: seq<Event>, expected: (nat, nat))
    ensures Expecting(a + b, expected) == Expecting(a, expected) + Expecting(b, expected)
  {
    if b == [] {
      assert a + b == a;
    } else {
      assert (a + b)[..|a + b| - 1] == a + b[..|b| - 1];
      ExpectingConcat(a, b[..|b| - 1], expected);
    }
  }

  lemma ExpectingNothing(expected: (nat, nat))
    ensures Expecting([], expected) == []
  {
  }

  lemma WithoutNone(queue: seq<Event>)
    ensures Without(queue, |queue|) == queue
  {
  }

  lemma ExpectingOne(event: Event, expected: (nat, nat))
    ensures Expecting([event], expected) == if event.info.expected == expected then [event] else []
    ensures Expecting([], expected) == []
  {
    assert [event][..0] == [];
  }

  lemma {:induction false} ExpectingNone(events: seq<Event>, expected: (nat, nat))
    requires forall i :: 0 <= i < |events| ==> events[i].info.expected != expected
    ensures Expecting(events, expected) == []
  {
    if events != [] {
      ExpectingNone(events[..|events| - 1], expected);
    }
  }

  /** Taking the oldest match takes the oldest of all requests that expect the same response. */
  lemma TakeIsOldest(queue: seq<Event>, response: Info, expected: (nat, nat))
    requires FindRequest(queue, response) < |queue|
    ensures var index := FindRequest(queue, response);
            Expecting(queue, expected) == Expecting([queue[index]], expected) + Expecting(Without(queue, index), expected)
  {
    hide FindRequest, Answers, Expecting;
    var index := FindRequest(queue, response);
    var before, taken, after := queue[..index], queue[index], queue[index + 1..];
    assert queue == before + ([taken] + after);
    ExpectingConcat(before, [taken] + after, expected);
    ExpectingConcat([taken], after, expected);
    ExpectingConcat(before, after, expected);
    ExpectingOne(taken, expected);
    if taken.info.expected == expected {
      ExpectingNone(before, expected);
    }
    SwapWithEmpty(Expecting(before, expected), Expecting([taken], expected), Expecting(after, expected));
  }

  lemma SwapWithEmpty(a: seq<Event>, b: seq<Event>, c: seq<Event>)
    requires a == [] || b == []
    ensures a + (b + c) == b + (a + c)
  {
  }

  // ----- whole connections ---------------------------------------------------------------------

  lemma {:induction false} FailuresSettle(queue: seq<Event>)
    ensures SettledIn(Failures(queue)) == queue
  {
    if queue != [] {
      assert Failures(queue)[..|Failures(queue)| - 1] == Failures(queue[..|queue| - 1]);
      FailuresSettle(queue[..|queue| - 1]);
      assert Settled(Rpc(queue[|queue| - 1], None, Closed)) == [queue[|queue| - 1]];
    }
  }

  lemma CutShortSettles(s: State, key: Key)
    ensures SettledIn(CutShort(s, key)) == Held(ContentAt(s, key))
  {
    if key in s.content {
      SettledOne(Message(s.content[key], Closed));
    }
  }

  /** What a shutdown settles on a channel, after the pending requests. */
  lemma ShutDownSettles(before: State, after: State, channel: nat) returns (cut: seq<Event>)
    requires ShutDownOn(before, after, channel)
    ensures SettledIn(OnChannel(after.records, channel))
         == SettledIn(OnChannel(before.records, channel)) + PendingOn(before, channel) + cut
    ensures var sent := Held(ContentAt(before, Key(ClientToServer, channel)));
            var received := Held(ContentAt(before, Key(ServerToClient, channel)));
            cut == sent + received || cut == received + sent
  {
    hide OnChannel, Failures, CutShort, Held, SettledIn;
    var sentKey, receivedKey := Key(ClientToServer, channel), Key(ServerToClient, channel);
    var sent, received := CutShort(before, sentKey), CutShort(before, receivedKey);
    var recorded, failed := OnChannel(before.records, channel), Failures(PendingOn(before, channel));
    FailuresSettle(PendingOn(before, channel));
    CutShortSettles(before, sentKey);
    CutShortSettles(before, receivedKey);
    SettledConcat(recorded, failed);
    SettledConcat(recorded + failed, sent);
    SettledConcat(recorded + failed + sent, received);
    SettledConcat(recorded + failed, received);
    SettledConcat(recorded + failed + received, sent);
    if OnChannel(after.records, channel) == recorded + failed + sent + received {
      cut := SettledIn(sent) + SettledIn(received);
    } else {
      cut := SettledIn(received) + SettledIn(sent);
    }
  }

  /** Over a whole connection, each synchronous request is recorded exactly once on its channel. */
  lemma EveryRequestRecordedOnce(inputs: seq<Input>, after: State, channel: nat)
    requires ShutDown(Run(START, inputs), after)
    ensures multiset(SettledIn(OnChannel(after.records, channel))) == multiset(EnqueuedOn(inputs, channel))
  {
    hide Run, OnChannel, SettledIn, EnqueuedOn, Held, PendingOn, ContentAt, ShutDownOn;
    forall event: Event
      ensures Count(SettledIn(OnChannel(after.records, channel)), event) == Count(EnqueuedOn(inputs, channel), event)
    {
      hide Count;
      RecordedAsOftenAsSent(inputs, after, channel, event);
    }
    forall event: Event
      ensures multiset(SettledIn(OnChannel(after.records, channel)))[event] == multiset(EnqueuedOn(inputs, channel))[event]
    {
      assert Count(SettledIn(OnChannel(after.records, channel)), event) == Count(EnqueuedOn(inputs, channel), event);
    }
  }

  lemma RecordedAsOftenAsSent(inputs: seq<Input>, after: State, channel: nat, event: Event)
    requires ShutDown(Run(START, inputs), after)
    ensures Count(SettledIn(OnChannel(after.records, channel)), event) == Count(EnqueuedOn(inputs, channel), event)
  {
    hide Run, OnChannel, SettledIn, EnqueuedOn, Held, PendingOn, ContentAt, ShutDownOn, Count;
    var before := Run(START, inputs);
    StartIsSound();
    RequestsConserved(START, inputs, channel, event);
    StartIsEmpty(channel, event);
    var cut := ShutDownSettles(before, after, channel);
    var sent, received := Held(ContentAt(before, Key(ClientToServer, channel))), Held(ContentAt(before, Key(ServerToClient, channel)));
    var kept := SettledIn(OnChannel(before.records, channel));
    CountConcat(kept + PendingOn(before, channel), cut, event);
    CountConcat(kept, PendingOn(before, channel), event);
    CountConcat(sent, received, event);
    CountConcat(received, sent, event);
  }

  lemma StartIsEmpty(channel: nat, event: Event)
    ensures Account(START, channel, event) == 0
  {
  }

  /** A reply recorded with a request is a reply to that request. */
  lemma {:induction false} RepliesMatchRequests(s: State, inputs: seq<Input>, i: nat)
    requires Sound(s) && i < |Run(s, inputs).records|
    requires forall k :: 0 <= k < |s.records| ==> Correlated(s.records[k])
    ensures Correlated(Run(s, inputs).records[i])
    decreases |inputs|
  {
    hide Step, Sound, EffectOf, QueueSound, ContentSound;
    if inputs != [] {
      var key := KeyOf(inputs[0]);
      SoundParts(s, key);
      StepFollows(s, inputs[0]);
      EffectSound(PendingOn(s, key.channel), ContentAt(s, key), inputs[0]);
      StepKeepsSound(s, inputs[0]);
      RepliesMatchRequests(Step(s, inputs[0]), inputs[1..], i);
    }
  }

  lemma SoundParts(s: State, key: Key)
    requires Sound(s)
    ensures QueueSound(PendingOn(s, key.channel), key.channel) && ContentSound(ContentAt(s, key), key.channel)
  {
  }

  predicate Correlated(record: Record) {
    record.Rpc? && record.response.Some? ==>
      record.request.frame.channel == ChannelOf(record)
      && Answers(record.request.info.expected, record.response.value.info)
  }
}

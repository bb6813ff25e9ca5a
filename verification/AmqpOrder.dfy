/**
 The order in which requests are recorded. Requests that expect the same response are recorded in the
 order they were sent, except that a basic.get whose message is still arriving can be overtaken.
 */
module AmqpOrder {
  import opened Wrappers
  import opened Bytes
  import opened AmqpMethods
  import opened AmqpInspector
  import opened AmqpTheorems
  import opened AmqpAccounting

  // ----- who is where --------------------------------------------------------------------------

  /** The basic.get whose message is arriving on a channel. */
  function HeldOn(s: State, channel: nat): seq<Event> {
    Held(ContentAt(s, Key(ServerToClient, channel)))
  }

  function RecordedOn(s: State, channel: nat, expected: (nat, nat)): seq<Event> {
    Expecting(SettledIn(OnChannel(s.records, channel)), expected)
  }

  /** Requests of one kind on a channel: those recorded, the one whose message is arriving, those pending. */
  function Line(s: State, channel: nat, expected: (nat, nat)): seq<Event> {
    RecordedOn(s, channel, expected) + Expecting(HeldOn(s, channel), expected) + Expecting(PendingOn(s, channel), expected)
  }

  /** Messages that a client sends answer no request. */
  ghost predicate OnlyReceivedHold(s: State) {
    forall channel: nat :: Held(ContentAt(s, Key(ClientToServer, channel))) == []
  }

  /** A reply that is not a message records a pending request while one of its kind is held. */
  predicate Overtakes(queue: seq<Event>, held: seq<Event>, input: Input, expected: (nat, nat)) {
    && input.Observed? && input.direction == ServerToClient && input.frame.typeID == FRAME_METHOD
    && var info := InspectMethod(input.frame);
       var index := FindRequest(queue, info);
       && !info.carriesContent && index < |queue| && held != []
       && queue[index].info.expected == expected && held[0].info.expected == expected
  }

  predicate OvertakesOn(s: State, input: Input, channel: nat, expected: (nat, nat)) {
    input.frame.channel == channel && Overtakes(PendingOn(s, channel), HeldOn(s, channel), input, expected)
  }

  /** No input of the run lets a pending request overtake a held one. */
  predicate NeverOvertaken(s: State, inputs: seq<Input>, channel: nat, expected: (nat, nat))
    decreases |inputs|
  {
    inputs == [] || (!OvertakesOn(s, inputs[0], channel, expected)
                     && NeverOvertaken(Step(s, inputs[0]), inputs[1..], channel, expected))
  }

  // ----- one effect ----------------------------------------------------------------------------

  predicate KeepsLine(queue: seq<Event>, held: seq<Event>, e: Effect, stillHeld: seq<Event>, enqueued: seq<Event>, expected: (nat, nat)) {
    Expecting(SettledBy(e), expected) + Expecting(stillHeld, expected) + Expecting(e.queue, expected)
    == Expecting(held, expected) + Expecting(queue, expected) + Expecting(enqueued, expected)
  }

  lemma Nothing(a: seq<Event>)
    ensures a + [] == a && [] + a == a
  {
  }

  /** A client's input settles nothing and adds to the end of the queue. */
  lemma ClientEffect(queue: seq<Event>, content: Option<Content>, held: seq<Event>, input: Input, expected: (nat, nat))
    requires KeyOf(input).direction == ClientToServer && Held(content) == []
    ensures var e := EffectOf(queue, content, input);
            && |e.emitted| <= 1 && SettledBy(e) == [] && Held(e.content) == [] && KeepsLine(queue, held, e, held, Enqueued(input), expected)
  {
    hide InspectMethod, InspectContentHeader, Append, FindRequest, Synchronous, Expecting;
    AppendKeeps(content, input.frame);
    ExpectingNothing(expected);
    Nothing(Expecting(held, expected));
    Nothing(Expecting(held, expected) + Expecting(queue, expected));
    ExpectingConcat(queue, [EventOf(input.frame, input.now)], expected);
    assert Expecting(held, expected) + (Expecting(queue, expected) + Expecting([EventOf(input.frame, input.now)], expected))
        == Expecting(held, expected) + Expecting(queue, expected) + Expecting([EventOf(input.frame, input.now)], expected);
  }

  /** A message that is finished or superseded settles the request it held. */
  lemma ContentEffect(queue: seq<Event>, content: Option<Content>, input: Input, expected: (nat, nat))
    requires input.Observed? && input.direction == ServerToClient
    requires input.frame.typeID == FRAME_HEADER || input.frame.typeID == FRAME_BODY
    ensures var e := EffectOf(queue, content, input);
            |e.emitted| <= 1 && KeepsLine(queue, Held(content), e, Held(e.content), [], expected)
  {
    hide InspectContentHeader, Append, Expecting;
    AppendKeeps(content, input.frame);
    ExpectingNothing(expected);
    Nothing(Expecting(queue, expected));
    Nothing(Expecting(Held(content), expected));
    Nothing(Expecting(Held(content), expected) + Expecting(queue, expected));
  }

  lemma TakenFirst(queue: seq<Event>, response: Info, expected: (nat, nat))
    requires FindRequest(queue, response) < |queue|
    ensures var index := FindRequest(queue, response);
            && Expecting(queue, expected) == Expecting([queue[index]], expected) + Expecting(Without(queue, index), expected)
            && Expecting([queue[index]], expected) == if queue[index].info.expected == expected then [queue[index]] else []
  {
    hide FindRequest, Expecting, Without;
    TakeIsOldest(queue, response, expected);
    ExpectingOne(queue[FindRequest(queue, response)], expected);
  }

  /** A server's message that answers a get takes it, and settles what was held before. */
  lemma MessageEffect(queue: seq<Event>, content: Option<Content>, event: Event, expected: (nat, nat))
    requires event.info.carriesContent
    ensures var e := MethodEffect(queue, content, ServerToClient, event);
            |e.emitted| <= 1 && KeepsLine(queue, Held(content), e, Held(e.content), [], expected)
  {
    hide FindRequest, Expecting, Without, Answers;
    var index := FindRequest(queue, event.info);
    ExpectingNothing(expected);
    Nothing(Expecting(queue, expected));
    Nothing(Expecting(Held(content), expected));
    Nothing(Expecting(Held(content), expected) + Expecting(queue, expected));
    if index < |queue| {
      TakenFirst(queue, event.info, expected);
      var h, q, w := Expecting(Held(content), expected), Expecting([queue[index]], expected), Expecting(Without(queue, index), expected);
      assert h + q + w == h + (q + w);
    } else {
      WithoutNone(queue);
    }
  }

  /** Any other reply of a server keeps the line unless it overtakes. */
  lemma ReplyEffect(queue: seq<Event>, content: Option<Content>, event: Event, expected: (nat, nat))
    requires !event.info.carriesContent
    requires var index := FindRequest(queue, event.info);
             index < |queue| && Held(content) != [] && queue[index].info.expected == expected ==> Held(content)[0].info.expected != expected
    ensures var e := MethodEffect(queue, content, ServerToClient, event);
            |e.emitted| <= 1 && KeepsLine(queue, Held(content), e, Held(e.content), [], expected)
  {
    hide FindRequest, Expecting, Without, Answers;
    var index := FindRequest(queue, event.info);
    ExpectingNothing(expected);
    var h := Expecting(Held(content), expected);
    Nothing(h);
    Nothing(h + Expecting(queue, expected));
    if index < |queue| {
      TakenFirst(queue, event.info, expected);
      var q, w := Expecting([queue[index]], expected), Expecting(Without(queue, index), expected);
      if Held(content) != [] {
        ExpectingOne(Held(content)[0], expected);
        assert Held(content) == [Held(content)[0]];
      }
      assert h + q == q + h by {
        Nothing(q);
      }
      assert h + q + w == h + (q + w);
    }
  }

  lemma ServerEffect(queue: seq<Event>, content: Option<Content>, input: Input, expected: (nat, nat))
    requires KeyOf(input).direction == ServerToClient && !Overtakes(queue, Held(content), input, expected)
    ensures var e := EffectOf(queue, content, input);
            |e.emitted| <= 1 && KeepsLine(queue, Held(content), e, Held(e.content), Enqueued(input), expected)
  {
    hide InspectMethod, MethodEffect, HeaderEffect, BodyEffect, FindRequest, Expecting, Held, KeepsLine, Synchronous;
    var frame := input.frame;
    if frame.typeID == FRAME_METHOD {
      if InspectMethod(frame).carriesContent {
        MessageEffect(queue, content, EventOf(frame, input.now), expected);
      } else {
        ReplyEffect(queue, content, EventOf(frame, input.now), expected);
      }
    } else if frame.typeID == FRAME_HEADER || frame.typeID == FRAME_BODY {
      ContentEffect(queue, content, input, expected);
    } else {
      NothingHappens(queue, content, EffectOf(queue, content, input), expected);
    }
  }

  lemma NothingHappens(queue: seq<Event>, content: Option<Content>, e: Effect, expected: (nat, nat))
    requires e.queue == queue && e.content == content && SettledBy(e) == []
    ensures KeepsLine(queue, Held(content), e, Held(content), [], expected)
  {
    hide Expecting;
    ExpectingNothing(expected);
    Nothing(Expecting(Held(content), expected));
    Nothing(Expecting(Held(content), expected) + Expecting(queue, expected));
  }

  // ----- one step ------------------------------------------------------------------------------

  lemma StepHolds(s: State, input: Input)
    requires Sound(s) && OnlyReceivedHold(s)
    ensures OnlyReceivedHold(Step(s, input))
  {
    hide Step, EffectOf, Held, QueueSound, ContentSound, Enqueued;
    var key := KeyOf(input);
    StepFollows(s, input);
    if key.direction == ClientToServer {
      assert key == Key(ClientToServer, key.channel);
      ClientEffect(PendingOn(s, key.channel), ContentAt(s, key), [], input, (0, 0));
    }
    forall channel: nat
      ensures Held(ContentAt(Step(s, input), Key(ClientToServer, channel))) == []
    {
      assert Held(ContentAt(s, Key(ClientToServer, channel))) == [];
    }
  }

  lemma {:induction false} RunHolds(s: State, inputs: seq<Input>)
    requires Sound(s) && OnlyReceivedHold(s)
    ensures OnlyReceivedHold(Run(s, inputs))
    decreases |inputs|
  {
    hide Step, Sound, OnlyReceivedHold;
    if inputs != [] {
      StepKeepsSound(s, inputs[0]);
      StepHolds(s, inputs[0]);
      RunHolds(Step(s, inputs[0]), inputs[1..]);
    }
  }

  /** What a step on the channel records, holds and leaves pending there. */
  lemma StepParts(s: State, input: Input, expected: (nat, nat))
    requires Sound(s) && OnlyReceivedHold(s)
    ensures var channel := input.frame.channel;
            var next := Step(s, input);
            && (!OvertakesOn(s, input, channel, expected) ==>
                exists e :: RecordedOn(next, channel, expected) == RecordedOn(s, channel, expected) + Expecting(SettledBy(e), expected)
                            && PendingOn(next, channel) == e.queue
                            && KeepsLine(PendingOn(s, channel), HeldOn(s, channel), e, HeldOn(next, channel), Enqueued(input), expected))
            && (OvertakesOn(s, input, channel, expected) ==>
                var taken := PendingOn(s, channel)[FindRequest(PendingOn(s, channel), InspectMethod(input.frame))];
                RecordedOn(next, channel, expected) == RecordedOn(s, channel, expected) + [taken])
  {
    hide Step, EffectOf, OnChannel, QueueSound, ContentSound, Expecting, Enqueued, SettledIn, Held, KeepsLine, FindRequest, InspectMethod, SettledBy, Overtakes;
    var channel, key := input.frame.channel, KeyOf(input);
    var queue, content := PendingOn(s, channel), ContentAt(s, key);
    var e := EffectOf(queue, content, input);
    StepOnChannel(s, input);
    EffectSound(queue, content, input);
    SettledConcat(OnChannel(s.records, channel), e.emitted);
    SettledByEffect(e);
    ExpectingConcat(SettledIn(OnChannel(s.records, channel)), SettledBy(e), expected);
    if OvertakesOn(s, input, channel, expected) {
      OvertakingSettles(queue, HeldOn(s, channel), content, input, expected);
    } else if key.direction == ClientToServer {
      assert key == Key(ClientToServer, channel);
      ClientEffect(queue, content, HeldOn(s, channel), input, expected);
    } else {
      assert key == Key(ServerToClient, channel);
      ServerEffect(queue, content, input, expected);
    }
  }

  lemma OvertakingSettles(queue: seq<Event>, held: seq<Event>, content: Option<Content>, input: Input, expected: (nat, nat))
    requires Overtakes(queue, held, input, expected)
    ensures var index := FindRequest(queue, InspectMethod(input.frame));
            index < |queue| && Expecting(SettledBy(EffectOf(queue, content, input)), expected) == [queue[index]]
  {
    hide FindRequest, InspectMethod, Expecting, Without;
    ExpectingOne(queue[FindRequest(queue, InspectMethod(input.frame))], expected);
  }

  lemma StepKeepsLine(s: State, input: Input, channel: nat, expected: (nat, nat))
    requires Sound(s) && OnlyReceivedHold(s) && !OvertakesOn(s, input, channel, expected)
    ensures Line(Step(s, input), channel, expected)
         == Line(s, channel, expected) + Expecting(if input.frame.channel == channel then Enqueued(input) else [], expected)
  {
    hide Step, Expecting, Enqueued, RecordedOn, HeldOn, OvertakesOn, PendingOn, SettledBy, Sound, OnlyReceivedHold;
    if input.frame.channel == channel {
      StepParts(s, input, expected);
      var next := Step(s, input);
      var e :| RecordedOn(next, channel, expected) == RecordedOn(s, channel, expected) + Expecting(SettledBy(e), expected)
               && PendingOn(next, channel) == e.queue
               && KeepsLine(PendingOn(s, channel), HeldOn(s, channel), e, HeldOn(next, channel), Enqueued(input), expected);
      var r, x := RecordedOn(s, channel, expected), Expecting(SettledBy(e), expected);
      Regroup(r, x, Expecting(HeldOn(next, channel), expected), Expecting(e.queue, expected));
      Regroup(r, Expecting(HeldOn(s, channel), expected), Expecting(PendingOn(s, channel), expected), Expecting(Enqueued(input), expected));
    } else {
      StepElsewhereKeeps(s, input, channel, expected);
      ExpectingNothing(expected);
      Nothing(Line(s, channel, expected));
    }
  }

  lemma Regroup(a: seq<Event>, b: seq<Event>, c: seq<Event>, d: seq<Event>)
    ensures a + b + c + d == a + (b + c + d)
  {
  }

  lemma StepElsewhereKeeps(s: State, input: Input, channel: nat, expected: (nat, nat))
    requires Sound(s) && input.frame.channel != channel
    ensures Line(Step(s, input), channel, expected) == Line(s, channel, expected)
    ensures RecordedOn(Step(s, input), channel, expected) == RecordedOn(s, channel, expected)
  {
    hide Step, Expecting, OnChannel, SettledIn, Held, Sound;
    StepElsewhere(s, input, channel);
    SameProjection(Step(s, input), s, channel);
  }

  /** Records are only added. */
  lemma StepRecords(s: State, input: Input, channel: nat, expected: (nat, nat))
    requires Sound(s) && OnlyReceivedHold(s)
    ensures RecordedOn(s, channel, expected) <= RecordedOn(Step(s, input), channel, expected)
  {
    hide Step, Expecting, RecordedOn, Sound, OnlyReceivedHold, HeldOn, OvertakesOn, PendingOn, Enqueued;
    if input.frame.channel == channel {
      StepParts(s, input, expected);
    } else {
      StepElsewhereKeeps(s, input, channel, expected);
    }
  }

  lemma {:induction false} RunRecords(s: State, inputs: seq<Input>, channel: nat, expected: (nat, nat))
    requires Sound(s) && OnlyReceivedHold(s)
    ensures RecordedOn(s, channel, expected) <= RecordedOn(Run(s, inputs), channel, expected)
    decreases |inputs|
  {
    hide Step, RecordedOn, Sound, OnlyReceivedHold;
    if inputs != [] {
      StepRecords(s, inputs[0], channel, expected);
      StepKeepsSound(s, inputs[0]);
      StepHolds(s, inputs[0]);
      RunRecords(Step(s, inputs[0]), inputs[1..], channel, expected);
    }
  }

  // ----- runs ----------------------------------------------------------------------------------

  /** The line a run should end with: what it started with and what was sent. */
  function Due(s: State, inputs: seq<Input>, channel: nat, expected: (nat, nat)): seq<Event> {
    Line(s, channel, expected) + Expecting(EnqueuedOn(inputs, channel), expected)
  }

  lemma {:induction false} KeptInOrder(s: State, inputs: seq<Input>, channel: nat, expected: (nat, nat))
    requires Sound(s) && OnlyReceivedHold(s) && NeverOvertaken(s, inputs, channel, expected)
    ensures Line(Run(s, inputs), channel, expected) == Due(s, inputs, channel, expected)
    decreases |inputs|
  {
    hide Step, Line, Sound, Enqueued, Expecting, OvertakesOn, OnlyReceivedHold;
    if inputs == [] {
      ExpectingNothing(expected);
      Nothing(Line(s, channel, expected));
    } else {
      StepKeepsSound(s, inputs[0]);
      StepHolds(s, inputs[0]);
      DueStep(s, inputs, channel, expected);
      KeptInOrder(Step(s, inputs[0]), inputs[1..], channel, expected);
    }
  }

  lemma DueStep(s: State, inputs: seq<Input>, channel: nat, expected: (nat, nat))
    requires Sound(s) && OnlyReceivedHold(s) && inputs != [] && !OvertakesOn(s, inputs[0], channel, expected)
    ensures Due(Step(s, inputs[0]), inputs[1..], channel, expected) == Due(s, inputs, channel, expected)
  {
    hide Step, Line, Sound, Enqueued, Expecting, OvertakesOn, OnlyReceivedHold;
    StepKeepsLine(s, inputs[0], channel, expected);
    var first := if inputs[0].frame.channel == channel then Enqueued(inputs[0]) else [];
    ExpectingConcat(first, EnqueuedOn(inputs[1..], channel), expected);
    assert Line(s, channel, expected) + Expecting(first, expected) + Expecting(EnqueuedOn(inputs[1..], channel), expected)
        == Line(s, channel, expected) + (Expecting(first, expected) + Expecting(EnqueuedOn(inputs[1..], channel), expected));
  }

  /** No request occurs twice; frames with the same bytes differ in their time. */
  predicate Distinct(events: seq<Event>) {
    forall i, j :: 0 <= i < j < |events| ==> events[i] != events[j]
  }

  /** Once overtaken, a request has another recorded in its place for good. */
  lemma {:induction false} OvertakenForGood(s: State, inputs: seq<Input>, channel: nat, expected: (nat, nat)) returns (i: nat)
    requires Sound(s) && OnlyReceivedHold(s) && !NeverOvertaken(s, inputs, channel, expected)
    requires Distinct(Due(s, inputs, channel, expected))
    ensures i < |RecordedOn(Run(s, inputs), channel, expected)| && i < |Due(s, inputs, channel, expected)|
    ensures RecordedOn(Run(s, inputs), channel, expected)[i] != Due(s, inputs, channel, expected)[i]
    decreases |inputs|
  {
    hide Step, Sound, Enqueued, Expecting, OvertakesOn, OnlyReceivedHold, RecordedOn, Due, EnqueuedOn, Distinct;
    var next := Step(s, inputs[0]);
    StepKeepsSound(s, inputs[0]);
    StepHolds(s, inputs[0]);
    if OvertakesOn(s, inputs[0], channel, expected) {
      i := |RecordedOn(s, channel, expected)|;
      RunRecords(next, inputs[1..], channel, expected);
      OvertakenHere(s, inputs, channel, expected);
    } else {
      DueStep(s, inputs, channel, expected);
      i := OvertakenForGood(next, inputs[1..], channel, expected);
    }
  }

  lemma OvertakenHere(s: State, inputs: seq<Input>, channel: nat, expected: (nat, nat))
    requires Sound(s) && OnlyReceivedHold(s) && inputs != [] && OvertakesOn(s, inputs[0], channel, expected)
    requires Distinct(Due(s, inputs, channel, expected))
    ensures var i := |RecordedOn(s, channel, expected)|;
            && i < |RecordedOn(Step(s, inputs[0]), channel, expected)| && i < |Due(s, inputs, channel, expected)|
            && RecordedOn(Step(s, inputs[0]), channel, expected)[i] != Due(s, inputs, channel, expected)[i]
  {
    hide Step, Sound, Enqueued, Expecting, OnlyReceivedHold, RecordedOn, EnqueuedOn, FindRequest, InspectMethod, PendingOn;
    StepParts(s, inputs[0], expected);
    HeldIsOne(s, channel);
    ExpectingOne(HeldOn(s, channel)[0], expected);
    var queue, recorded := PendingOn(s, channel), RecordedOn(s, channel, expected);
    var taken := queue[FindRequest(queue, InspectMethod(inputs[0].frame))];
    ExpectingMembers(queue, expected, taken);
    var pending := Expecting(queue, expected);
    var k :| 0 <= k < |pending| && pending[k] == taken;
    assert Due(s, inputs, channel, expected)[|recorded|] == HeldOn(s, channel)[0];
    assert Due(s, inputs, channel, expected)[|recorded| + 1 + k] == taken;
  }

  lemma HeldIsOne(s: State, channel: nat)
    ensures HeldOn(s, channel) == [] || HeldOn(s, channel) == [HeldOn(s, channel)[0]]
  {
  }

  /**
   Over every run, the requests that expect one response - recorded, held, pending - stand in the order
   they were sent exactly when no pending one was recorded while one was held.
   */
  lemma RequestsKeepOrderIff(s: State, inputs: seq<Input>, channel: nat, expected: (nat, nat))
    requires Sound(s) && OnlyReceivedHold(s)
    requires Distinct(Line(s, channel, expected) + Expecting(EnqueuedOn(inputs, channel), expected))
    ensures Line(Run(s, inputs), channel, expected) == Line(s, channel, expected) + Expecting(EnqueuedOn(inputs, channel), expected)
       <==> NeverOvertaken(s, inputs, channel, expected)
  {
    hide Run, Sound, Enqueued, Expecting, OnlyReceivedHold, RecordedOn, EnqueuedOn, NeverOvertaken, PendingOn, HeldOn, Distinct;
    if NeverOvertaken(s, inputs, channel, expected) {
      KeptInOrder(s, inputs, channel, expected);
    } else {
      var i := OvertakenForGood(s, inputs, channel, expected);
      assert Line(Run(s, inputs), channel, expected)[i] == RecordedOn(Run(s, inputs), channel, expected)[i];
    }
  }

  /** Only a basic.get is ever held, so requests of every other kind keep their order without condition. */
  lemma {:induction false} OtherRequestsKeepOrder(s: State, inputs: seq<Input>, channel: nat, expected: (nat, nat))
    requires Sound(s) && expected != (60, 0)
    ensures NeverOvertaken(s, inputs, channel, expected) && !LeftBehind(Run(s, inputs), channel, expected)
    decreases |inputs|
  {
    hide Step, QueueSound, FindRequest, InspectMethod, PendingOn;
    assert ContentSound(ContentAt(s, Key(ServerToClient, channel)), channel);
    if inputs != [] {
      StepKeepsSound(s, inputs[0]);
      OtherRequestsKeepOrder(Step(s, inputs[0]), inputs[1..], channel, expected);
    }
  }

  // ----- whole connections ---------------------------------------------------------------------

  /** At the shutdown a request is held while one of its kind is pending. */
  predicate LeftBehind(s: State, channel: nat, expected: (nat, nat)) {
    && HeldOn(s, channel) != [] && HeldOn(s, channel)[0].info.expected == expected
    && exists i :: 0 <= i < |PendingOn(s, channel)| && PendingOn(s, channel)[i].info.expected == expected
  }

  lemma {:induction false} ExpectingMembers(events: seq<Event>, expected: (nat, nat), event: Event)
    ensures event in Expecting(events, expected) <==> event in events && event.info.expected == expected
  {
    if events != [] {
      var before, last := events[..|events| - 1], events[|events| - 1];
      ExpectingMembers(before, expected, event);
      assert events == before + [last];
    }
  }

  /** An element commutes with a sequence only of its own copies. */
  lemma {:induction false} Commutes(event: Event, events: seq<Event>)
    ensures [event] + events == events + [event] <==> forall i :: 0 <= i < |events| ==> events[i] == event
  {
    if events != [] {
      var rest := events[1..];
      Commutes(event, rest);
      if [event] + events == events + [event] {
        assert events[0] == ([event] + events)[0];
        assert [event] + rest == events;
        assert rest + [event] == (events + [event])[1..] == ([event] + events)[1..];
      }
      if forall i :: 0 <= i < |events| ==> events[i] == event {
        assert forall i :: 0 <= i < |events| + 1 ==> ([event] + events)[i] == event && (events + [event])[i] == event;
      }
    }
  }

  /** A shutdown records the pending requests before the held one. */
  lemma ShutDownOrder(before: State, after: State, channel: nat, expected: (nat, nat))
    requires ShutDownOn(before, after, channel) && OnlyReceivedHold(before)
    ensures RecordedOn(after, channel, expected)
         == RecordedOn(before, channel, expected) + Expecting(PendingOn(before, channel), expected) + Expecting(HeldOn(before, channel), expected)
  {
    hide OnChannel, SettledIn, ShutDownOn, Expecting, Held, PendingOn;
    var cut := ShutDownSettles(before, after, channel);
    assert Held(ContentAt(before, Key(ClientToServer, channel))) == [];
    Nothing(HeldOn(before, channel));
    var kept := SettledIn(OnChannel(before.records, channel));
    ExpectingConcat(kept + PendingOn(before, channel), cut, expected);
    ExpectingConcat(kept, PendingOn(before, channel), expected);
  }

  lemma FirstIsIn(events: seq<Event>)
    ensures events != [] ==> events[0] in events
  {
  }

  lemma HeldCommutes(s: State, channel: nat, expected: (nat, nat))
    requires Distinct(Line(s, channel, expected))
    ensures var held, pending := Expecting(HeldOn(s, channel), expected), Expecting(PendingOn(s, channel), expected);
            held + pending == pending + held <==> !LeftBehind(s, channel, expected)
  {
    hide Expecting, PendingOn, HeldOn, RecordedOn;
    var held, pending := Expecting(HeldOn(s, channel), expected), Expecting(PendingOn(s, channel), expected);
    HeldIsOne(s, channel);
    ExpectingNothing(expected);
    if HeldOn(s, channel) == [] {
      Nothing(pending);
    } else {
      var h := HeldOn(s, channel)[0];
      ExpectingOne(h, expected);
      if h.info.expected == expected {
        Commutes(h, pending);
        forall event: Event
          ensures event in pending <==> event in PendingOn(s, channel) && event.info.expected == expected
        {
          ExpectingMembers(PendingOn(s, channel), expected, event);
        }
        if !LeftBehind(s, channel, expected) {
          FirstIsIn(pending);
        } else {
          var i :| 0 <= i < |PendingOn(s, channel)| && PendingOn(s, channel)[i].info.expected == expected;
          assert PendingOn(s, channel)[i] in pending;
          var recorded := RecordedOn(s, channel, expected);
          assert Line(s, channel, expected)[|recorded|] == h && Line(s, channel, expected)[|recorded| + 1] == pending[0];
        }
      } else {
        Nothing(pending);
      }
    }
  }

  /**
   Over a whole connection, the requests that expect one response are recorded in the order they were sent
   exactly when none was overtaken and, at the shutdown, none was held while another was pending.
   */
  lemma RequestsRecordedInOrderIff(inputs: seq<Input>, after: State, channel: nat, expected: (nat, nat))
    requires ShutDown(Run(START, inputs), after) && Distinct(EnqueuedOn(inputs, channel))
    ensures RecordedOn(after, channel, expected) == Expecting(EnqueuedOn(inputs, channel), expected)
       <==> NeverOvertaken(START, inputs, channel, expected) && !LeftBehind(Run(START, inputs), channel, expected)
  {
    hide Run, ShutDownOn, Expecting, EnqueuedOn, PendingOn, HeldOn, RecordedOn, NeverOvertaken, LeftBehind, OnlyReceivedHold, Distinct;
    var before, sent := Run(START, inputs), Expecting(EnqueuedOn(inputs, channel), expected);
    StartIsSound();
    StartHoldsNothing(channel, expected);
    RunHolds(START, inputs);
    ShutDownOrder(before, after, channel, expected);
    Nothing(sent);
    ExpectingDistinct(EnqueuedOn(inputs, channel), expected);
    var recorded := RecordedOn(before, channel, expected);
    var held, pending := Expecting(HeldOn(before, channel), expected), Expecting(PendingOn(before, channel), expected);
    if NeverOvertaken(START, inputs, channel, expected) {
      KeptInOrder(START, inputs, channel, expected);
      HeldCommutes(before, channel, expected);
      assert recorded + held + pending == recorded + (held + pending);
      assert recorded + pending + held == recorded + (pending + held);
      if RecordedOn(after, channel, expected) == sent {
        assert (recorded + (held + pending))[|recorded|..] == held + pending;
        assert (recorded + (pending + held))[|recorded|..] == pending + held;
      }
    } else {
      var i := OvertakenForGood(START, inputs, channel, expected);
      assert RecordedOn(after, channel, expected)[i] == recorded[i];
    }
  }

  lemma {:induction false} ExpectingDistinct(events: seq<Event>, expected: (nat, nat))
    requires Distinct(events)
    ensures Distinct(Expecting(events, expected))
  {
    if events != [] {
      var before, last := events[..|events| - 1], events[|events| - 1];
      ExpectingDistinct(before, expected);
      ExpectingMembers(before, expected, last);
    }
  }

  /** Requests seen at different times are distinct, whatever their bytes. */
  lemma {:induction false} TimesTellApart(inputs: seq<Input>, channel: nat)
    requires forall i, j :: 0 <= i < j < |inputs| ==> inputs[i].now != inputs[j].now
    ensures Distinct(EnqueuedOn(inputs, channel))
    ensures forall event <- EnqueuedOn(inputs, channel) :: exists i :: 0 <= i < |inputs| && inputs[i].now == event.started
    decreases |inputs|
  {
    hide InspectMethod, Synchronous;
    if inputs != [] {
      var first, rest := inputs[0], EnqueuedOn(inputs[1..], channel);
      TimesTellApart(inputs[1..], channel);
      forall event | event in EnqueuedOn(inputs, channel)
        ensures exists i :: 0 <= i < |inputs| && inputs[i].now == event.started
      {
        if event in rest {
          var i :| 0 <= i < |inputs[1..]| && inputs[1..][i].now == event.started;
          assert inputs[i + 1].now == event.started;
        } else {
          assert inputs[0].now == event.started;
        }
      }
      forall event | event in rest
        ensures event.started != first.now
      {
        var i :| 0 <= i < |inputs[1..]| && inputs[1..][i].now == event.started;
        assert inputs[i + 1].now == event.started;
      }
    }
  }

  lemma StartHoldsNothing(channel: nat, expected: (nat, nat))
    ensures OnlyReceivedHold(START) && Line(START, channel, expected) == []
  {
  }

  // ----- the failing runs ----------------------------------------------------------------------

  predicate IsMethod(frame: Frame, classID: nat, methodID: nat) {
    && frame.typeID == FRAME_METHOD && |frame.payload| >= 4
    && BigEndian(frame.payload[..2]) == classID && BigEndian(frame.payload[2..4]) == methodID
  }

  lemma GetIsSynchronous(frame: Frame)
    requires IsMethod(frame, 60, 70)
    ensures var info := InspectMethod(frame);
            info.expected == (60, 0) && Synchronous(info) && !info.carriesContent
  {
    hide BigEndian;
  }

  lemma GetReplies(frame: Frame, methodID: nat)
    requires IsMethod(frame, 60, methodID) && (methodID == 71 || methodID == 72)
    ensures var info := InspectMethod(frame);
            Answers((60, 0), info) && info.classID == 60 && info.methodID == methodID && (info.carriesContent <==> methodID == 71)
  {
    hide BigEndian, NoWait;
  }

  function Begin(first: Frame, second: Frame, ok: Frame, times: (nat, nat, nat)): seq<Input> {
    [Prepared(first, times.0), Prepared(second, times.1), Observed(ServerToClient, ok, times.2)]
  }

  /** Two gets, perhaps of the same bytes, and the reply to the first has begun: the first is held, the second is pending. */
  lemma HeldAndPending(first: Frame, second: Frame, ok: Frame, channel: nat, times: (nat, nat, nat)) returns (s: State)
    requires IsMethod(first, 60, 70) && IsMethod(second, 60, 70) && IsMethod(ok, 60, 71)
    requires first.channel == second.channel == ok.channel == channel
    ensures s == Run(START, Begin(first, second, ok, times))
    ensures PendingOn(s, channel) == [EventOf(second, times.1)] && HeldOn(s, channel) == [EventOf(first, times.0)] && s.records == []
    ensures Sound(s) && OnlyReceivedHold(s)
    ensures EnqueuedOn(Begin(first, second, ok, times), channel) == [EventOf(first, times.0), EventOf(second, times.1)]
  {
    hide InspectMethod, Answers, Sound, OnlyReceivedHold;
    GetIsSynchronous(first);
    GetIsSynchronous(second);
    GetReplies(ok, 71);
    var inputs := Begin(first, second, ok, times);
    var s1 := Step(START, inputs[0]);
    assert PendingOn(s1, channel) == [EventOf(first, times.0)];
    var s2 := Step(s1, inputs[1]);
    assert PendingOn(s2, channel) == [EventOf(first, times.0), EventOf(second, times.1)];
    assert FindRequest(PendingOn(s2, channel), InspectMethod(ok)) == 0;
    s := Step(s2, inputs[2]);
    assert [EventOf(first, times.0), EventOf(second, times.1)][..0] + [EventOf(first, times.0), EventOf(second, times.1)][1..] == [EventOf(second, times.1)];
    RunOfThree(inputs);
    EnqueuedOfThree(inputs, channel);
    StartIsSound();
    RunKeepsSound(START, inputs);
    StartHoldsNothing(channel, (60, 0));
    RunHolds(START, inputs);
  }

  lemma RunOfThree(inputs: seq<Input>)
    requires |inputs| == 3
    ensures Run(START, inputs) == Step(Step(Step(START, inputs[0]), inputs[1]), inputs[2])
  {
    hide Step;
    assert inputs[1..][1..] == [inputs[2]] && [inputs[2]][1..] == [];
    assert Run(Step(START, inputs[0]), inputs[1..]) == Run(Step(Step(START, inputs[0]), inputs[1]), [inputs[2]]);
    assert Run(Step(Step(START, inputs[0]), inputs[1]), [inputs[2]]) == Run(Step(Step(Step(START, inputs[0]), inputs[1]), inputs[2]), []);
  }

  lemma EnqueuedOfThree(inputs: seq<Input>, channel: nat)
    requires |inputs| == 3 && forall i :: 0 <= i < 3 ==> inputs[i].frame.channel == channel
    ensures EnqueuedOn(inputs, channel) == Enqueued(inputs[0]) + Enqueued(inputs[1]) + Enqueued(inputs[2])
  {
    hide Enqueued;
    assert inputs[1..][1..] == [inputs[2]] && [inputs[2]][1..] == [];
    assert EnqueuedOn([inputs[2]], channel) == Enqueued(inputs[2]) + EnqueuedOn([], channel) == Enqueued(inputs[2]);
    assert EnqueuedOn(inputs[1..], channel) == Enqueued(inputs[1]) + EnqueuedOn([inputs[2]], channel);
  }

  /** The connection then drops: the second get is recorded before the first. */
  lemma ShutdownOvertakes(first: Frame, second: Frame, ok: Frame, channel: nat, times: (nat, nat, nat), after: State)
    requires IsMethod(first, 60, 70) && IsMethod(second, 60, 70) && IsMethod(ok, 60, 71)
    requires first.channel == second.channel == ok.channel == channel
    requires ShutDown(Run(START, Begin(first, second, ok, times)), after)
    ensures RecordedOn(after, channel, (60, 0)) == [EventOf(second, times.1), EventOf(first, times.0)]
  {
    hide InspectMethod, ShutDownOn, Run, Expecting;
    var s := HeldAndPending(first, second, ok, channel, times);
    GetIsSynchronous(first);
    GetIsSynchronous(second);
    ShutDownOrder(s, after, channel, (60, 0));
    ExpectingOne(EventOf(first, times.0), (60, 0));
    ExpectingOne(EventOf(second, times.1), (60, 0));
  }

  /** Or the second get is answered with get-empty: it is recorded while the first is still held. */
  lemma GetEmptyOvertakes(first: Frame, second: Frame, ok: Frame, empty: Frame, channel: nat, times: (nat, nat, nat), now: nat)
    requires IsMethod(first, 60, 70) && IsMethod(second, 60, 70) && IsMethod(ok, 60, 71) && IsMethod(empty, 60, 72)
    requires first.channel == second.channel == ok.channel == empty.channel == channel
    ensures var s := Run(START, Begin(first, second, ok, times));
            var next := Step(s, Observed(ServerToClient, empty, now));
            RecordedOn(next, channel, (60, 0)) == [EventOf(second, times.1)] && HeldOn(next, channel) == [EventOf(first, times.0)]
  {
    hide InspectMethod, Answers, Sound, OnlyReceivedHold, Expecting, Run;
    var s := HeldAndPending(first, second, ok, channel, times);
    GetIsSynchronous(second);
    GetReplies(empty, 72);
    assert FindRequest(PendingOn(s, channel), InspectMethod(empty)) == 0;
    var record := Rpc(EventOf(second, times.1), Some(EventOf(empty, now)), NoProblem);
    var next := Step(s, Observed(ServerToClient, empty, now));
    assert next.records == [record] && ContentAt(next, Key(ServerToClient, channel)) == ContentAt(s, Key(ServerToClient, channel));
    assert [record][..0] == [] && ChannelOf(record) == channel;
    assert OnChannel([record], channel) == OnChannel([], channel) + [record] == [record];
    SettledOne(record);
    ExpectingOne(EventOf(second, times.1), (60, 0));
  }
}

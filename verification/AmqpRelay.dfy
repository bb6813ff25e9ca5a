/**
 The two relays of a connection and the broker, action by action. The client relay enters a request
 in the observer's queue before it writes the request to the broker, so whatever the interleaving,
 the reply finds its request.
 */
module AmqpRelay {
  import opened Wrappers
  import opened Bytes
  import opened AmqpMethods
  import opened AmqpInspector
  import opened AmqpTheorems
  import opened AmqpAccounting
  import AmqpReplies

  datatype ClientRelay = Reading | Writing(frame: Frame, prepared: bool) | Observing(frame: Frame)

  /** `owed` holds the channel and expected response of each request the broker has not answered yet. */
  datatype Relay = Relay(
    inspector: State,
    trace: seq<Input>,                    // what the observer was told, in order
    client: ClientRelay,
    delivered: Option<Frame>,             // written to the client, not yet observed
    owed: multiset<(nat, (nat, nat))>,
    wire: seq<Frame>)                     // sent by the broker, not yet read

  datatype Action =
    | ReadClient(frame: Frame, now: nat)
    | WriteBroker
    | ObserveClient(now: nat)
    | BrokerReplies(frame: Frame)
    | BrokerSends(frame: Frame)
    | DeliverFrame
    | ObserveServer(now: nat)

  const IDLE: Relay := Relay(START, [], Reading, None, multiset{}, [])

  /** The expected response that a method would satisfy. */
  function ReplyKey(info: Info): (nat, nat) {
    if info.classID == 60 && (info.methodID == 71 || info.methodID == 72) then (60, 0) else (info.classID, info.methodID)
  }

  /** A method that some request expects. */
  ghost predicate IsReply(frame: Frame) {
    frame.typeID == FRAME_METHOD &&
    exists request: Frame :: Synchronous(InspectMethod(request))
                             && InspectMethod(request).expected == ReplyKey(InspectMethod(frame))
  }

  function OwedFor(frame: Frame): (nat, (nat, nat)) {
    (frame.channel, InspectMethod(frame).expected)
  }

  function RepliesTo(frame: Frame): (nat, (nat, nat)) {
    (frame.channel, ReplyKey(InspectMethod(frame)))
  }

  predicate IsRequest(frame: Frame) {
    frame.typeID == FRAME_METHOD && Synchronous(InspectMethod(frame))
  }

  /** The broker answers each request it received once; anything else it sends is not a reply. */
  ghost predicate Possible(r: Relay, action: Action) {
    match action
    case ReadClient(_, _) => r.client == Reading
    case WriteBroker => r.client.Writing?
    case ObserveClient(_) => r.client.Observing?
    case BrokerReplies(frame) => frame.typeID == FRAME_METHOD && RepliesTo(frame) in r.owed
    case BrokerSends(frame) => !IsReply(frame)
    case DeliverFrame => r.delivered == None && r.wire != []
    case ObserveServer(_) => r.delivered.Some?
  }

  function Tell(r: Relay, input: Input): Relay {
    r.(inspector := Step(r.inspector, input), trace := r.trace + [input])
  }

  function Do(r: Relay, action: Action): Relay
    requires action.WriteBroker? ==> r.client.Writing?
    requires action.ObserveClient? ==> r.client.Observing?
    requires action.DeliverFrame? ==> r.wire != []
    requires action.ObserveServer? ==> r.delivered.Some?
  {
    match action
    case ReadClient(frame, now) =>
      Tell(r, Prepared(frame, now)).(client := Writing(frame, Prepare(r.inspector, frame, now).1))
    case WriteBroker =>
      var frame := r.client.frame;
      r.(client := if r.client.prepared then Reading else Observing(frame),
         owed := if IsRequest(frame) then r.owed + multiset{OwedFor(frame)} else r.owed)
    case ObserveClient(now) => Tell(r, Observed(ClientToServer, r.client.frame, now)).(client := Reading)
    case BrokerReplies(frame) => r.(owed := r.owed - multiset{RepliesTo(frame)}, wire := r.wire + [frame])
    case BrokerSends(frame) => r.(wire := r.wire + [frame])
    case DeliverFrame => r.(delivered := Some(r.wire[0]), wire := r.wire[1..])
    case ObserveServer(now) => Tell(r, Observed(ServerToClient, r.delivered.value, now)).(delivered := None)
  }

  ghost predicate Reachable(run: seq<Action>, r: Relay)
    decreases |run|
  {
    if run == [] then r == IDLE
    else
      var last := run[|run| - 1];
      exists before: Relay :: Reachable(run[..|run| - 1], before) && Possible(before, last) && r == Do(before, last)
  }

  // ----- the invariant -------------------------------------------------------------------------

  /** How many frames reply to a request on a channel that expects `key`. */
  function Replying(frames: seq<Frame>, channel: nat, key: (nat, nat)): nat {
    if frames == [] then 0
    else
      var last := frames[|frames| - 1];
      Replying(frames[..|frames| - 1], channel, key)
      + (if last.typeID == FRAME_METHOD && RepliesTo(last) == (channel, key) then 1 else 0)
  }

  function Travelling(r: Relay): seq<Frame> {
    (if r.delivered.Some? then [r.delivered.value] else []) + r.wire
  }

  /** A request being written: already queued, not yet at the broker. */
  function BeingWritten(r: Relay, channel: nat, key: (nat, nat)): nat {
    if r.client.Writing? && IsRequest(r.client.frame) && OwedFor(r.client.frame) == (channel, key) then 1 else 0
  }

  function Waiting(s: State, channel: nat, key: (nat, nat)): nat {
    |Expecting(PendingOn(s, channel), key)|
  }

  /** Some request expects `key`. */
  ghost predicate Expected(key: (nat, nat)) {
    exists request: Frame :: IsRequest(request) && InspectMethod(request).expected == key
  }

  /** Every reply owed, or on its way, has a request waiting for it. */
  ghost predicate Covered(r: Relay, channel: nat, key: (nat, nat)) {
    r.owed[(channel, key)] + Replying(Travelling(r), channel, key) + BeingWritten(r, channel, key)
    <= Waiting(r.inspector, channel, key)
  }

  ghost predicate Safe(r: Relay) {
    && Sound(r.inspector)
    && r.inspector == Run(START, r.trace)
    && (r.client.Writing? ==> r.client.prepared == IsRequest(r.client.frame))
    && (r.client.Observing? ==> !IsRequest(r.client.frame))
    && (forall channel: nat, key: (nat, nat) :: Expected(key) ==> Covered(r, channel, key))
  }

  lemma {:induction false} RunSnoc(s: State, inputs: seq<Input>, input: Input)
    ensures Run(s, inputs + [input]) == Step(Run(s, inputs), input)
    decreases |inputs|
  {
    if inputs == [] {
      assert [input][1..] == [];
    } else {
      assert (inputs + [input])[1..] == inputs[1..] + [input];
      RunSnoc(Step(s, inputs[0]), inputs[1..], input);
    }
  }

  lemma {:induction false} ReplyingConcat(a: seq<Frame>, b: seq<Frame>, channel: nat, key: (nat, nat))
    ensures Replying(a + b, channel, key) == Replying(a, channel, key) + Replying(b, channel, key)
  {
    if b == [] {
      assert a + b == a;
    } else {
      assert (a + b)[..|a + b| - 1] == a + b[..|b| - 1];
      ReplyingConcat(a, b[..|b| - 1], channel, key);
    }
  }

  lemma ReplyingOne(frame: Frame, channel: nat, key: (nat, nat))
    ensures Replying([frame], channel, key)
         == if frame.typeID == FRAME_METHOD && RepliesTo(frame) == (channel, key) then 1 else 0
  {
    assert [frame][..0] == [];
  }

  /** A genuine request is answered exactly by the methods with its key. */
  lemma AnswersIsKey(request: Frame, response: Info)
    ensures Answers(InspectMethod(request).expected, response) ==> InspectMethod(request).expected == ReplyKey(response)
    ensures IsRequest(request) && InspectMethod(request).expected == ReplyKey(response) ==>
              Answers(InspectMethod(request).expected, response)
  {
    ExpectedShape(request);
  }

  lemma ExpectedShape(frame: Frame)
    ensures var e := InspectMethod(frame).expected;
            e.1 != 71 && e.1 != 72 && (e.1 == 0 ==> e == (60, 0) || e == (0, 0))
  {
    hide NoWait, BigEndian;
  }

  // ----- how a step changes what waits ---------------------------------------------------------

  /** A method from the broker that satisfies `key` on its channel. */
  function Consumes(input: Input, key: (nat, nat)): nat {
    if input.Observed? && input.direction == ServerToClient && input.frame.typeID == FRAME_METHOD
       && ReplyKey(InspectMethod(input.frame)) == key
    then 1 else 0
  }

  lemma EffectOnWaiting(queue: seq<Event>, content: Option<Content>, input: Input, key: (nat, nat))
    requires QueueSound(queue, input.frame.channel)
    ensures |Expecting(EffectOf(queue, content, input).queue, key)| + Consumes(input, key)
            >= |Expecting(queue, key)| + |Expecting(Enqueued(input), key)|
  {
    hide InspectMethod, FindRequest, Synchronous, Answers, Expecting, Without, ReplyKey, HeaderEffect, BodyEffect;
    var event := EventOf(input.frame, input.now);
    var index := FindRequest(queue, event.info);
    if input.Observed? {
      QueueOfEffects(queue, content, input);
    }
    ExpectingNothing(key);
    ExpectingOne(event, key);
    ExpectingConcat(queue, [event], key);
    WithoutNone(queue);
    if index < |queue| {
      TakeIsOldest(queue, event.info, key);
      ExpectingOne(queue[index], key);
      AnswersIsKey(queue[index].frame, event.info);
    }
  }

  lemma QueueOfEffects(queue: seq<Event>, content: Option<Content>, input: Input)
    requires input.Observed?
    ensures HeaderEffect(queue, content, input.direction, input.frame, input.now).queue == queue
    ensures BodyEffect(queue, content, input.direction, input.frame, input.now).queue == queue
  {
    hide InspectContentHeader, Append;
  }

  lemma StepOnWaiting(s: State, input: Input, channel: nat, key: (nat, nat))
    requires Sound(s)
    ensures Waiting(Step(s, input), channel, key)
            + (if input.frame.channel == channel then Consumes(input, key) else 0)
            >= Waiting(s, channel, key)
               + (if input.frame.channel == channel then |Expecting(Enqueued(input), key)| else 0)
  {
    hide Step, EffectOf, QueueSound, ContentSound, Expecting, Enqueued, Consumes, PendingOn, ContentAt;
    if input.frame.channel == channel {
      StepOnChannel(s, input);
      EffectOnWaiting(PendingOn(s, channel), ContentAt(s, KeyOf(input)), input, key);
    } else {
      StepElsewhere(s, input, channel);
      SameProjection(Step(s, input), s, channel);
    }
  }

  // ----- preservation --------------------------------------------------------------------------

  lemma TellKeeps(r: Relay, input: Input)
    requires Safe(r)
    ensures Sound(Tell(r, input).inspector) && Tell(r, input).inspector == Run(START, Tell(r, input).trace)
  {
    hide Step, Sound, Covered;
    StepKeepsSound(r.inspector, input);
    RunSnoc(START, r.trace, input);
  }

  lemma ActionCovers(r: Relay, action: Action, channel: nat, key: (nat, nat))
    requires Safe(r) && Possible(r, action) && Expected(key) && Covered(r, channel, key)
    ensures Covered(Do(r, action), channel, key)
  {
    hide Step, Sound, Expecting, Enqueued, InspectMethod, Replying, PendingOn, Run, Expected;
    match action {
      case ReadClient(frame, now) =>
        StepOnWaiting(r.inspector, Prepared(frame, now), channel, key);
        EnqueuedKey(Prepared(frame, now), key);
      case WriteBroker =>
      case ObserveClient(now) =>
        StepOnWaiting(r.inspector, Observed(ClientToServer, r.client.frame, now), channel, key);
      case BrokerReplies(frame) =>
        assert Travelling(Do(r, action)) == Travelling(r) + [frame];
        ReplyingConcat(Travelling(r), [frame], channel, key);
        ReplyingOne(frame, channel, key);
      case BrokerSends(frame) =>
        assert Travelling(Do(r, action)) == Travelling(r) + [frame];
        ReplyingConcat(Travelling(r), [frame], channel, key);
        ReplyingOne(frame, channel, key);
        if frame.typeID == FRAME_METHOD && ReplyKey(InspectMethod(frame)) == key {
          ReplyIfExpected(frame, key);
        }
      case DeliverFrame =>
        assert Travelling(Do(r, action)) == Travelling(r);
      case ObserveServer(now) =>
        var frame := r.delivered.value;
        StepOnWaiting(r.inspector, Observed(ServerToClient, frame, now), channel, key);
        assert Travelling(r) == [frame] + Travelling(Do(r, action));
        ReplyingConcat([frame], Travelling(Do(r, action)), channel, key);
        ReplyingOne(frame, channel, key);
    }
  }

  lemma EnqueuedKey(input: Input, key: (nat, nat))
    requires input.Prepared?
    ensures |Expecting(Enqueued(input), key)|
         == if IsRequest(input.frame) && InspectMethod(input.frame).expected == key then 1 else 0
  {
    hide InspectMethod, Expecting;
    ExpectingOne(EventOf(input.frame, input.now), key);
  }

  lemma ReplyIfExpected(frame: Frame, key: (nat, nat))
    requires frame.typeID == FRAME_METHOD && ReplyKey(InspectMethod(frame)) == key && Expected(key)
    ensures IsReply(frame)
  {
    hide InspectMethod, ReplyKey;
  }

  lemma ActionKeeps(r: Relay, action: Action)
    requires Safe(r) && Possible(r, action)
    ensures Safe(Do(r, action))
  {
    hide Step, Sound, Covered, Run, InspectMethod, Expected;
    var next := Do(r, action);
    match action {
      case ReadClient(frame, now) => TellKeeps(r, Prepared(frame, now));
      case ObserveClient(now) => TellKeeps(r, Observed(ClientToServer, r.client.frame, now));
      case ObserveServer(now) => TellKeeps(r, Observed(ServerToClient, r.delivered.value, now));
      case _ =>
    }
    forall channel: nat, key: (nat, nat) | Expected(key) ensures Covered(next, channel, key) {
      ActionCovers(r, action, channel, key);
    }
  }

  lemma {:induction false} ReachableIsSafe(run: seq<Action>, r: Relay)
    requires Reachable(run, r)
    ensures Safe(r)
    decreases |run|
  {
    hide Safe, Do;
    if run == [] {
      IdleIsSafe();
    } else {
      var last := run[|run| - 1];
      var before: Relay :| Reachable(run[..|run| - 1], before) && Possible(before, last) && r == Do(before, last);
      ReachableIsSafe(run[..|run| - 1], before);
      ActionKeeps(before, last);
    }
  }

  lemma IdleIsSafe()
    ensures Safe(IDLE)
  {
    hide Expected;
    StartIsSound();
    forall channel: nat, key: (nat, nat) ensures Covered(IDLE, channel, key) {
      assert Travelling(IDLE) == [];
    }
  }

  /**
   In every interleaving, a reply to some request is recorded with a request of its channel that
   expects it, never as an unmatched broker event.
   */
  lemma ReplyFindsItsRequest(run: seq<Action>, r: Relay)
    requires Reachable(run, r) && r.delivered.Some? && IsReply(r.delivered.value)
    ensures var frame := r.delivered.value;
            var request := Take(r.inspector, frame.channel, InspectMethod(frame)).1;
            request.Some? && request.value.frame.channel == frame.channel
            && AmqpReplies.IsReplyTo(request.value.info.classID, request.value.info.methodID, InspectMethod(frame).classID, InspectMethod(frame).methodID)
  {
    hide Step, Expecting, InspectMethod, Replying, Run, ReplyKey, Answers, Covered, FindRequest;
    ReachableIsSafe(run, r);
    var frame := r.delivered.value;
    var info := InspectMethod(frame);
    var key := ReplyKey(info);
    var request: Frame :| Synchronous(InspectMethod(request)) && InspectMethod(request).expected == key;
    SynchronousIsMethod(request);
    assert Expected(key);
    assert Covered(r, frame.channel, key);
    WaitingForDelivered(r);
    var queue := PendingOn(r.inspector, frame.channel);
    assert QueueSound(queue, frame.channel);
    AnswersIsKey(request, info);
    if forall i :: 0 <= i < |queue| ==> queue[i].info.expected != key {
      ExpectingNone(queue, key);
    }
    var i := FindRequest(queue, info);
    assert queue[i] == EventOf(queue[i].frame, queue[i].started);
    AnswersByNumber(queue[i].frame, info, key);
  }

  /** The numbers of a request that is answered. */
  lemma AnswersByNumber(request: Frame, response: Info, key: (nat, nat))
    requires Answers(InspectMethod(request).expected, response) && Expected(key) && key == ReplyKey(response)
    ensures AmqpReplies.IsReplyTo(InspectMethod(request).classID, InspectMethod(request).methodID, response.classID, response.methodID)
  {
    hide InspectMethod, ExpectedResponse, Answers;
    var info := InspectMethod(request);
    AmqpReplies.InspectedExpects(request);
    AnswersIsKey(request, response);
    ExpectedIsGenuine(key);
    AmqpReplies.RequestsIff(info.classID, info.methodID);
    AmqpReplies.RepliesIff(info.classID, info.methodID, response);
  }

  lemma ExpectedIsGenuine(key: (nat, nat))
    requires Expected(key)
    ensures key.0 != 0
  {
    hide InspectMethod;
  }

  lemma SynchronousIsMethod(frame: Frame)
    ensures Synchronous(InspectMethod(frame)) ==> IsRequest(frame)
  {
    hide NoWait, BigEndian, ExpectedResponse;
  }

  lemma WaitingForDelivered(r: Relay)
    requires r.delivered.Some? && r.delivered.value.typeID == FRAME_METHOD
    requires Covered(r, r.delivered.value.channel, ReplyKey(InspectMethod(r.delivered.value)))
    ensures Waiting(r.inspector, r.delivered.value.channel, ReplyKey(InspectMethod(r.delivered.value))) > 0
  {
    hide Replying, InspectMethod, ReplyKey, Expecting;
    var frame := r.delivered.value;
    ReplyingConcat([frame], r.wire, frame.channel, ReplyKey(InspectMethod(frame)));
    ReplyingOne(frame, frame.channel, ReplyKey(InspectMethod(frame)));
  }

  /** When both relays are done and the rest is failed, every request the client sent is recorded exactly once. */
  lemma ConnectionAccountsForEveryRequest(run: seq<Action>, r: Relay, after: State, channel: nat)
    requires Reachable(run, r) && ShutDown(r.inspector, after)
    ensures multiset(SettledIn(OnChannel(after.records, channel))) == multiset(EnqueuedOn(r.trace, channel))
  {
    hide ShutDown;
    ReachableIsSafe(run, r);
    EveryRequestRecordedOnce(r.trace, after, channel);
  }
}

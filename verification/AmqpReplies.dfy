/** Which methods are requests, which methods answer them, and what the observer records for the pair, from the numbers alone. */
module AmqpReplies {
  import opened Wrappers
  import opened Bytes
  import opened AmqpMethods
  import opened AmqpInspector
  import opened AmqpTheorems
  import opened AmqpAccounting

  // ----- numbers -------------------------------------------------------------------------------

  /** The methods with a reply: of the connection (while it is open), channels, exchanges, queues, basic, confirm and tx. */
  predicate IsRequest(c: nat, m: nat) {
    || (c == 10 && m == 50)
    || (c == 20 && m in {10, 20, 40})
    || (c == 40 && m in {10, 20, 30, 40})
    || (c == 50 && m in {10, 20, 30, 40, 50})
    || (c == 60 && m in {10, 20, 30, 70, 110})
    || (c == 85 && m == 10)
    || (c == 90 && m in {10, 20, 30})
  }

  /**
   The reply has the number behind the request's, save for exchange.unbind and basic.get. The latter also
   takes a method numbered 0, which the standard does not have.
   */
  predicate IsReplyTo(c: nat, m: nat, replyClass: nat, replyMethod: nat) {
    && replyClass == c
    && (if c == 40 && m == 40 then replyMethod == 51
        else if c == 60 && m == 70 then replyMethod in {0, 71, 72}
        else replyMethod == m + 1)
  }

  lemma RequestsIff(c: nat, m: nat)
    ensures ExpectedResponse(c, m).0 != 0 <==> IsRequest(c, m)
  {
  }

  lemma RepliesIff(c: nat, m: nat, response: Info)
    requires IsRequest(c, m)
    ensures Answers(ExpectedResponse(c, m), response) <==> IsReplyTo(c, m, response.classID, response.methodID)
  {
  }

  /** A method frame with these numbers, most significant byte first. */
  predicate Carries(frame: Frame, c: nat, m: nat) {
    && frame.typeID == 1 && |frame.payload| >= 4
    && c == 256 * (frame.payload[0] as int) + frame.payload[1] as int
    && m == 256 * (frame.payload[2] as int) + frame.payload[3] as int
  }

  lemma CarriedIsInspected(frame: Frame, c: nat, m: nat)
    requires Carries(frame, c, m)
    ensures var info := InspectMethod(frame);
            && info.classID == c && info.methodID == m && info.expected == ExpectedResponse(c, m)
            && info.noWait == NoWait(c, m, frame.payload[4..])
            && (info.carriesContent <==> c == 60 && m in {40, 50, 60, 71})
  {
    hide BigEndian, ExpectedResponse, NoWait;
    var p := frame.payload;
    ByteOrders(p[0], p[1]);
    ByteOrders(p[2], p[3]);
    assert p[..2] == [p[0], p[1]] && p[2..4] == [p[2], p[3]];
  }

  // ----- pairs ---------------------------------------------------------------------------------

  /** No request in the queue waits for this method. */
  predicate NoneWaits(queue: seq<Event>, c: nat, m: nat) {
    forall i :: 0 <= i < |queue| ==> !IsReplyTo(queue[i].info.classID, queue[i].info.methodID, c, m)
  }

  /** Every queued event is a request as its numbers say. */
  predicate QueuedRequests(queue: seq<Event>) {
    forall i :: 0 <= i < |queue| ==>
      var info := queue[i].info;
      IsRequest(info.classID, info.methodID) && info.expected == ExpectedResponse(info.classID, info.methodID)
  }

  lemma QueuedAnswer(queue: seq<Event>, i: nat, response: Info)
    requires QueuedRequests(queue) && i < |queue|
    ensures Answers(queue[i].info.expected, response)
       <==> IsReplyTo(queue[i].info.classID, queue[i].info.methodID, response.classID, response.methodID)
  {
    hide ExpectedResponse, IsRequest, IsReplyTo, Answers;
    RepliesIff(queue[i].info.classID, queue[i].info.methodID, response);
  }

  lemma FirstAnswer(queue: seq<Event>, k: nat, response: Info)
    requires k < |queue| && Answers(queue[k].info.expected, response)
    requires forall i :: 0 <= i < k ==> !Answers(queue[i].info.expected, response)
    ensures FindRequest(queue, response) == k
  {
    hide Answers;
  }

  lemma WithoutMiddle(older: seq<Event>, request: Event, newer: seq<Event>)
    ensures Without(older + [request] + newer, |older|) == older + newer
  {
    var queue := older + [request] + newer;
    assert queue[..|older|] == older && queue[|older| + 1..] == newer;
  }

  lemma FoundAt(older: seq<Event>, request: Event, newer: seq<Event>, response: Info)
    requires QueuedRequests(older + [request]) && NoneWaits(older, response.classID, response.methodID)
    requires IsReplyTo(request.info.classID, request.info.methodID, response.classID, response.methodID)
    ensures FindRequest(older + [request] + newer, response) == |older|
    ensures Without(older + [request] + newer, |older|) == older + newer
  {
    hide QueuedRequests, IsReplyTo, Answers, FindRequest, Without;
    var front, queue := older + [request], older + [request] + newer;
    QueuedAnswer(front, |older|, response);
    forall i | 0 <= i < |older| ensures !Answers(queue[i].info.expected, response) {
      QueuedAnswer(front, i, response);
      assert queue[i] == front[i] == older[i];
    }
    assert queue[|older|] == front[|older|] == request;
    FirstAnswer(queue, |older|, response);
    WithoutMiddle(older, request, newer);
  }

  /** A request that may be answered is queued behind the others; one with the no-wait bit is not. */
  lemma RequestIsQueued(s: State, frame: Frame, now: nat, c: nat, m: nat)
    requires Carries(frame, c, m)
    ensures var queue, next := PendingOn(s, frame.channel), PendingOn(Step(s, Prepared(frame, now)), frame.channel);
            next == if IsRequest(c, m) && !NoWait(c, m, frame.payload[4..]) then queue + [EventOf(frame, now)] else queue
  {
    hide NoWait, ExpectedResponse, InspectMethod;
    CarriedIsInspected(frame, c, m);
    RequestsIff(c, m);
  }

  /**
   A reply of the server finds the oldest request on its channel that waits for its number: the record
   pairs those two frames, and the other requests keep waiting.
   */
  lemma ReplyIsPaired(s: State, older: seq<Event>, request: Frame, sent: nat, newer: seq<Event>, reply: Frame, now: nat,
                      c: nat, m: nat, r: nat)
    requires Sound(s) && PendingOn(s, reply.channel) == older + [EventOf(request, sent)] + newer && QueuedRequests(older)
    requires Carries(request, c, m) && IsRequest(c, m) && Carries(reply, c, r) && IsReplyTo(c, m, c, r) && r != 71
    requires NoneWaits(older, c, r)
    ensures var next := Step(s, Observed(ServerToClient, reply, now));
            && next.records == s.records + [Rpc(EventOf(request, sent), Some(EventOf(reply, now)), NoProblem)]
            && PendingOn(next, reply.channel) == older + newer
  {
    hide Step, InspectMethod, ExpectedResponse, Sound, IsRequest, IsReplyTo, NoWait, FindRequest, Without;
    CarriedIsInspected(request, c, m);
    CarriedIsInspected(reply, c, r);
    NotContent(c, m, r);
    FoundAt(older, EventOf(request, sent), newer, InspectMethod(reply));
    StepFollows(s, Observed(ServerToClient, reply, now));
    assert (older + [EventOf(request, sent)] + newer)[|older|] == EventOf(request, sent);
  }

  lemma NotContent(c: nat, m: nat, r: nat)
    requires IsRequest(c, m) && IsReplyTo(c, m, c, r) && r != 71
    ensures !(c == 60 && r in {40, 50, 60, 71})
  {
  }

  /** A get-ok takes the oldest basic.get with it into the message that it starts. */
  lemma GetIsHeld(s: State, older: seq<Event>, get: Frame, sent: nat, newer: seq<Event>, reply: Frame, now: nat)
    requires Sound(s) && PendingOn(s, reply.channel) == older + [EventOf(get, sent)] + newer && QueuedRequests(older)
    requires Carries(get, 60, 70) && Carries(reply, 60, 71) && NoneWaits(older, 60, 71)
    ensures var next := Step(s, Observed(ServerToClient, reply, now));
            var content := ContentAt(next, Key(ServerToClient, reply.channel));
            && PendingOn(next, reply.channel) == older + newer
            && content.Some? && content.value.request == Some(EventOf(get, sent))
            && content.value.event == EventOf(reply, sent) && content.value.frameBytes == |reply.raw|
  {
    hide Step, InspectMethod, ExpectedResponse, Sound, NoWait, FindRequest, Without;
    CarriedIsInspected(get, 60, 70);
    CarriedIsInspected(reply, 60, 71);
    FoundAt(older, EventOf(get, sent), newer, InspectMethod(reply));
    StepFollows(s, Observed(ServerToClient, reply, now));
    assert (older + [EventOf(get, sent)] + newer)[|older|] == EventOf(get, sent);
  }

  lemma NobodyFound(queue: seq<Event>, response: Info)
    requires QueuedRequests(queue) && NoneWaits(queue, response.classID, response.methodID)
    ensures FindRequest(queue, response) == |queue|
  {
    hide ExpectedResponse, IsRequest, IsReplyTo, Answers;
    forall i | 0 <= i < |queue| ensures !Answers(queue[i].info.expected, response) {
      RepliesIff(queue[i].info.classID, queue[i].info.methodID, response);
    }
  }

  /** Any other method without content, sent by the client or waited for by nobody, is recorded by itself. */
  lemma StandsAlone(s: State, direction: Direction, frame: Frame, now: nat, c: nat, m: nat)
    requires Carries(frame, c, m) && !(c == 60 && m in {40, 50, 60, 71})
    requires if direction == ClientToServer then !IsRequest(c, m) || NoWait(c, m, frame.payload[4..])
             else QueuedRequests(PendingOn(s, frame.channel)) && NoneWaits(PendingOn(s, frame.channel), c, m)
    ensures var next := Step(s, Observed(direction, frame, now));
            && next.records == s.records + [Single(direction, EventOf(frame, now), NoProblem)]
            && PendingOn(next, frame.channel) == PendingOn(s, frame.channel) && next.content == s.content
  {
    hide InspectMethod, ExpectedResponse, NoWait, FindRequest, QueuedRequests, NoneWaits;
    CarriedIsInspected(frame, c, m);
    RequestsIff(c, m);
    if direction == ServerToClient {
      NobodyFound(PendingOn(s, frame.channel), InspectMethod(frame));
    }
  }

  /** In every reachable state the queues hold requests only. */
  lemma SoundQueues(s: State, channel: nat)
    requires Sound(s) && OnlyRequests(s, channel)
    ensures QueuedRequests(PendingOn(s, channel))
  {
    hide IsRequest;
    var queue := PendingOn(s, channel);
    assert QueueSound(queue, channel);
    forall i | 0 <= i < |queue|
      ensures IsRequest(queue[i].info.classID, queue[i].info.methodID)
      ensures queue[i].info.expected == ExpectedResponse(queue[i].info.classID, queue[i].info.methodID)
    {
      InspectedExpects(queue[i].frame);
      RequestsIff(queue[i].info.classID, queue[i].info.methodID);
    }
  }

  lemma InspectedExpects(frame: Frame)
    ensures InspectMethod(frame).expected == ExpectedResponse(InspectMethod(frame).classID, InspectMethod(frame).methodID)
  {
    hide BigEndian, NoWait;
  }

  predicate OnlyRequests(s: State, channel: nat) {
    forall i :: 0 <= i < |PendingOn(s, channel)| ==> Synchronous(PendingOn(s, channel)[i].info)
  }

  lemma {:induction false} QueuesHoldRequests(inputs: seq<Input>, s: State, channel: nat)
    requires Sound(s) && OnlyRequests(s, channel)
    ensures Sound(Run(s, inputs)) && QueuedRequests(PendingOn(Run(s, inputs), channel))
    decreases |inputs|
  {
    hide Step, Sound, OnlyRequests, QueuedRequests;
    if inputs == [] {
      SoundQueues(s, channel);
    } else {
      StepKeepsSound(s, inputs[0]);
      StepOnlyRequests(s, inputs[0], channel);
      QueuesHoldRequests(inputs[1..], Step(s, inputs[0]), channel);
    }
  }

  lemma StepOnlyRequests(s: State, input: Input, channel: nat)
    requires OnlyRequests(s, channel)
    ensures OnlyRequests(Step(s, input), channel)
  {
    hide Step, InspectMethod, HeaderEffect, BodyEffect, FindRequest, Synchronous;
    StepFollows(s, input);
    if input.Observed? {
      QueueOfContent(PendingOn(s, input.frame.channel), ContentAt(s, KeyOf(input)), input);
    }
  }

  lemma QueueOfContent(queue: seq<Event>, content: Option<Content>, input: Input)
    requires input.Observed?
    ensures HeaderEffect(queue, content, input.direction, input.frame, input.now).queue == queue
    ensures BodyEffect(queue, content, input.direction, input.frame, input.now).queue == queue
  {
    hide InspectContentHeader, Append;
  }

  /**
   After any run: a request is sent on a channel where nobody waits for its reply, the reply arrives, and the
   record pairs exactly these two frames.
   */
  lemma RequestThenReply(inputs: seq<Input>, request: Frame, sent: nat, reply: Frame, now: nat, c: nat, m: nat, r: nat)
    requires Carries(request, c, m) && IsRequest(c, m) && !NoWait(c, m, request.payload[4..])
    requires Carries(reply, c, r) && IsReplyTo(c, m, c, r) && r != 71 && request.channel == reply.channel
    requires NoneWaits(PendingOn(Run(START, inputs), reply.channel), c, r)
    ensures var s := Run(START, inputs);
            var paired := Step(Step(s, Prepared(request, sent)), Observed(ServerToClient, reply, now));
            && paired.records == s.records + [Rpc(EventOf(request, sent), Some(EventOf(reply, now)), NoProblem)]
            && PendingOn(paired, reply.channel) == PendingOn(s, reply.channel)
  {
    hide Run, Step, InspectMethod, NoWait, IsRequest, IsReplyTo, Sound, QueuedRequests, NoneWaits;
    var s, older := Run(START, inputs), PendingOn(Run(START, inputs), reply.channel);
    StartIsSound();
    QueuesHoldRequests(inputs, START, reply.channel);
    RequestIsQueued(s, request, sent, c, m);
    StepKeepsSound(s, Prepared(request, sent));
    StepFollows(s, Prepared(request, sent));
    PreparedRecordsNothing(s, request, sent);
    assert older + [EventOf(request, sent)] + [] == older + [EventOf(request, sent)];
    ReplyIsPaired(Step(s, Prepared(request, sent)), older, request, sent, [], reply, now, c, m, r);
    assert older + [] == older;
  }

  lemma PreparedRecordsNothing(s: State, frame: Frame, now: nat)
    ensures Step(s, Prepared(frame, now)).records == s.records
  {
    hide InspectMethod, Synchronous;
  }

  /** A record of a request with a reply, and one of a get with its message, pairs what belongs together by its numbers. */
  predicate PairedByNumber(record: Record) {
    && (record.Rpc? && record.response.Some? ==>
        IsReplyTo(record.request.info.classID, record.request.info.methodID, record.response.value.info.classID, record.response.value.info.methodID))
    && (record.Message? ==> HeldByNumber(Some(record.content)))
  }

  /** What a message answers is a basic.get. */
  predicate HeldByNumber(content: Option<Content>) {
    content.Some? && content.value.request.Some? ==>
      content.value.request.value.info.classID == 60 && content.value.request.value.info.methodID == 70
  }

  lemma FoundIsPaired(queue: seq<Event>, response: Info)
    requires QueuedRequests(queue)
    ensures var i := FindRequest(queue, response);
            i < |queue| ==> IsReplyTo(queue[i].info.classID, queue[i].info.methodID, response.classID, response.methodID)
    ensures var i := FindRequest(queue, response);
            i < |queue| && response.classID == 60 && response.methodID == 71 ==> queue[i].info.classID == 60 && queue[i].info.methodID == 70
  {
    hide ExpectedResponse, Answers;
    var i := FindRequest(queue, response);
    if i < |queue| {
      RepliesIff(queue[i].info.classID, queue[i].info.methodID, response);
    }
  }

  lemma EffectPairs(queue: seq<Event>, content: Option<Content>, input: Input)
    requires QueuedRequests(queue) && HeldByNumber(content)
    ensures var e := EffectOf(queue, content, input);
            HeldByNumber(e.content) && |e.emitted| <= 1 && (e.emitted != [] ==> PairedByNumber(e.emitted[0]))
  {
    hide InspectMethod, InspectContentHeader, Append, FindRequest, Synchronous, QueuedRequests, IsReplyTo;
    FoundIsPaired(queue, InspectMethod(input.frame));
    if content.Some? {
      AppendLeavesRequest(content.value, input.frame);
    }
  }

  lemma AppendLeavesRequest(content: Content, frame: Frame)
    ensures Append(content, frame).request == content.request
  {
  }

  /** In every reachable state: a reply is recorded with a request that it answers by its number, and only a basic.get waits for a message. */
  lemma {:induction false} RecordsPairByNumber(s: State, inputs: seq<Input>, i: nat)
    requires Sound(s) && (forall channel: nat :: OnlyRequests(s, channel)) && forall key: Key :: HeldByNumber(ContentAt(s, key))
    requires i < |Run(s, inputs).records| && forall k :: 0 <= k < |s.records| ==> PairedByNumber(s.records[k])
    ensures PairedByNumber(Run(s, inputs).records[i])
    decreases |inputs|
  {
    hide Step, Sound, EffectOf, OnlyRequests, HeldByNumber, PairedByNumber, QueuedRequests;
    if inputs != [] {
      var key, next := KeyOf(inputs[0]), Step(s, inputs[0]);
      SoundQueues(s, key.channel);
      StepFollows(s, inputs[0]);
      EffectPairs(PendingOn(s, key.channel), ContentAt(s, key), inputs[0]);
      StepKeepsSound(s, inputs[0]);
      forall channel: nat ensures OnlyRequests(next, channel) {
        StepOnlyRequests(s, inputs[0], channel);
      }
      forall k: Key ensures HeldByNumber(ContentAt(next, k)) {
        assert HeldByNumber(ContentAt(s, k));
      }
      RecordsPairByNumber(next, inputs[1..], i);
    }
  }

  // ----- the no-wait bit -----------------------------------------------------------------------

  /** A short string: its length in one byte, then its bytes. */
  function ShortString(text: seq<byte>): seq<byte>
    requires |text| < 256
  {
    [|text|] + text
  }

  function ShortStrings(texts: seq<seq<byte>>): seq<byte>
    requires forall i :: 0 <= i < |texts| ==> |texts[i]| < 256
  {
    if texts == [] then [] else ShortString(texts[0]) + ShortStrings(texts[1..])
  }

  /** Methods that have the bit: whether a reserved number comes first, how many names follow, and which bit it is. */
  predicate HasNoWait(c: nat, m: nat, reserved: bool, names: nat, bit: nat) {
    || ((c, m) == (40, 10) && reserved && names == 2 && bit == 4)     // exchange.declare
    || ((c, m) == (40, 20) && reserved && names == 1 && bit == 1)     // exchange.delete
    || ((c, m) == (40, 30) && reserved && names == 3 && bit == 0)     // exchange.bind
    || ((c, m) == (40, 40) && reserved && names == 3 && bit == 0)     // exchange.unbind
    || ((c, m) == (50, 10) && reserved && names == 1 && bit == 4)     // queue.declare
    || ((c, m) == (50, 20) && reserved && names == 3 && bit == 0)     // queue.bind
    || ((c, m) == (50, 30) && reserved && names == 1 && bit == 0)     // queue.purge
    || ((c, m) == (50, 40) && reserved && names == 1 && bit == 2)     // queue.delete
    || ((c, m) == (60, 20) && reserved && names == 2 && bit == 3)     // basic.consume
    || ((c, m) == (60, 30) && !reserved && names == 1 && bit == 0)    // basic.cancel
    || ((c, m) == (85, 10) && !reserved && names == 0 && bit == 0)    // confirm.select
  }

  lemma {:induction false} StringsSkipped(data: seq<byte>, texts: seq<seq<byte>>, rest: seq<byte>, pos: nat, fields: seq<Field>)
    requires forall i :: 0 <= i < |texts| ==> |texts[i]| < 256
    requires pos <= |data| && data[pos..] == ShortStrings(texts) + rest
    requires |fields| == |texts| && forall i :: 0 <= i < |fields| ==> fields[i] == Field.ShortString
    ensures var end := SkipFields(data, pos, fields);
            end == pos + |ShortStrings(texts)| && data[end..] == rest
    decreases |texts|
  {
    hide SkipField, ShortString;
    if texts == [] {
      assert [] + rest == rest;
    } else {
      var more := ShortStrings(texts[1..]);
      assert ShortString(texts[0]) + more + rest == ShortString(texts[0]) + (more + rest);
      StringSkipped(data, pos, texts[0], more + rest);
      StringsSkipped(data, texts[1..], rest, pos + 1 + |texts[0]|, fields[1..]);
    }
  }

  lemma StringSkipped(data: seq<byte>, pos: nat, text: seq<byte>, rest: seq<byte>)
    requires |text| < 256 && pos <= |data| && data[pos..] == ShortString(text) + rest
    ensures var next := pos + 1 + |text|;
            SkipField(data, pos, Field.ShortString) == next && next <= |data| && data[next..] == rest
    ensures |ShortString(text)| == 1 + |text|
  {
    var tail := data[pos..];
    assert data[pos] == tail[0] == |text|;
    assert data[pos + 1 + |text|..] == tail[1 + |text|..];
    assert (ShortString(text) + rest)[1 + |text|..] == rest;
  }

  /** The bit is read where the standard has it, whatever the names, for every method that has one; the others have none. */
  lemma NoWaitIff(c: nat, m: nat, reserved: seq<byte>, names: seq<seq<byte>>, bits: byte, rest: seq<byte>, bit: nat)
    requires (reserved == [] || |reserved| == 2) && forall i :: 0 <= i < |names| ==> |names[i]| < 256
    requires HasNoWait(c, m, reserved != [], |names|, bit)
    ensures NoWait(c, m, reserved + (ShortStrings(names) + ([bits] + rest))) <==> bits / [1, 2, 4, 8, 16][bit] % 2 == 1
  {
    hide SkipFields, ShortStrings, Bit;
    var data := reserved + (ShortStrings(names) + ([bits] + rest));
    var fields := NoWaitLayout(c, m).value.0;
    var strings := if reserved == [] then fields else fields[1..];
    assert data[|reserved|..] == ShortStrings(names) + ([bits] + rest);
    StringsSkipped(data, names, [bits] + rest, |reserved|, strings);
    ReservedSkipped(data, |reserved|, fields);
    BitsOfByte(bits, bit);
    var end := |reserved| + |ShortStrings(names)|;
    assert data[end] == data[end..][0] == bits;
  }

  lemma ReservedSkipped(data: seq<byte>, width: nat, fields: seq<Field>)
    requires (width == 0 || width == 2) && width <= |data|
    requires width == 2 ==> fields != [] && fields[0] == Short
    ensures SkipFields(data, 0, fields) == SkipFields(data, width, if width == 0 then fields else fields[1..])
  {
  }

  lemma LayoutHasNoWait(c: nat, m: nat)
    requires NoWaitLayout(c, m).Some?
    ensures exists reserved, names, bit :: HasNoWait(c, m, reserved, names, bit)
  {
    var (fields, bit) := NoWaitLayout(c, m).value;
    var reserved := fields != [] && fields[0] == Short;
    assert HasNoWait(c, m, reserved, |fields| - (if reserved then 1 else 0), bit);
  }

  lemma OthersHaveNoBit(c: nat, m: nat, arguments: seq<byte>)
    requires forall reserved, names, bit :: !HasNoWait(c, m, reserved, names, bit)
    ensures !NoWait(c, m, arguments)
  {
    hide NoWaitLayout, HasNoWait;
    if NoWaitLayout(c, m).Some? {
      LayoutHasNoWait(c, m);
    }
  }

  // ----- content headers -----------------------------------------------------------------------

  /** The basic properties: texts, but for the headers, delivery mode, priority and timestamp. */
  function KindAt(i: nat): PropertyKind {
    if i == 2 then Table else if i == 3 || i == 4 then Octet else if i == 9 then LongLong else Text
  }

  lemma KindsAgree(i: nat)
    requires i < 14
    ensures PROPERTIES[i] == KindAt(i)
  {
  }

  /** A property as it stands in a content header, if it is there. */
  function PropertyBytes(kind: PropertyKind, value: seq<byte>): seq<byte> {
    match kind
    case Text => [|value| % 256] + value
    case Table => ToBigEndian(|value|, 4) + value
    case Octet => value
    case LongLong => value
  }

  predicate PropertyFits(kind: PropertyKind, value: seq<byte>) {
    match kind
    case Text => |value| < 256
    case Table => |value| < Pow256(4)
    case Octet => |value| == 1
    case LongLong => |value| == 8
  }

  predicate PropertiesFit(values: seq<Option<seq<byte>>>, index: nat)
    requires |values| == 14 && index <= 14
  {
    forall i :: index <= i < 14 && values[i].Some? ==> PropertyFits(KindAt(i), values[i].value)
  }

  function PropertiesBytes(values: seq<Option<seq<byte>>>, index: nat): seq<byte>
    requires |values| == 14 && index <= 14
    decreases 14 - index
  {
    if index == 14 then []
    else (if values[index].Some? then PropertyBytes(KindAt(index), values[index].value) else []) + PropertiesBytes(values, index + 1)
  }

  /** The first `n` properties as binary digits, the last of them the least. */
  function Digits(values: seq<Option<seq<byte>>>, n: nat): nat
    requires n <= |values|
  {
    if n == 0 then 0 else 2 * Digits(values, n - 1) + (if values[n - 1].Some? then 1 else 0)
  }

  /** Class 60, weight 0, the size, a flag for each property from the highest bit down, and those that are there. */
  function ContentHeader(size: nat, values: seq<Option<seq<byte>>>): seq<byte>
    requires |values| == 14
  {
    [0, 60, 0, 0] + (ToBigEndian(size, 8) + (ToBigEndian(4 * Digits(values, 14), 2) + PropertiesBytes(values, 0)))
  }

  lemma {:induction false} DigitsBelow(values: seq<Option<seq<byte>>>, n: nat)
    requires n <= |values|
    ensures Digits(values, n) < Pow2(n)
  {
    if n > 0 {
      DigitsBelow(values, n - 1);
    }
  }

  lemma BitOfDouble(value: nat, b: nat, k: nat)
    requires b < 2
    ensures Bit(2 * value + b, k) <==> if k == 0 then b == 1 else Bit(value, k - 1)
  {
    assert (2 * value + b) / 2 == value && (2 * value + b) % 2 == b;
  }

  lemma {:induction false} DigitAt(values: seq<Option<seq<byte>>>, n: nat, i: nat)
    requires i < n <= |values|
    ensures Bit(Digits(values, n), n - 1 - i) <==> values[i].Some?
  {
    hide Bit;
    var b := if values[n - 1].Some? then 1 else 0;
    assert Digits(values, n) == 2 * Digits(values, n - 1) + b;
    BitOfDouble(Digits(values, n - 1), b, n - 1 - i);
    if i < n - 1 {
      DigitAt(values, n - 1, i);
    }
  }

  lemma FlagAt(values: seq<Option<seq<byte>>>, i: nat)
    requires |values| == 14 && i < 14
    ensures Bit(4 * Digits(values, 14), 15 - i) <==> values[i].Some?
  {
    hide Digits;
    DigitAt(values, 14, i);
    var flags := 4 * Digits(values, 14);
    assert flags / 2 / 2 == Digits(values, 14);
    assert Bit(flags, 15 - i) == Bit(flags / 2, 14 - i) == Bit(flags / 2 / 2, 13 - i);
  }

  lemma PropertySkipped(data: seq<byte>, pos: nat, kind: PropertyKind, value: seq<byte>, rest: seq<byte>)
    requires PropertyFits(kind, value) && pos <= |data| && data[pos..] == PropertyBytes(kind, value) + rest
    ensures SkipProperty(data, pos, kind) == Some(pos + |PropertyBytes(kind, value)|)
    ensures pos + |PropertyBytes(kind, value)| <= |data| && data[pos + |PropertyBytes(kind, value)|..] == rest
  {
    hide Pow256, BigEndian, ToBigEndian;
    var tail, bytes := data[pos..], PropertyBytes(kind, value);
    assert data[pos + |bytes|..] == tail[|bytes|..] == rest;
    match kind
    case Text => assert data[pos] == tail[0];
    case Table =>
      assert data[pos..pos + 4] == tail[..4] == ToBigEndian(|value|, 4);
      BigEndianInverse(|value|, 4);
    case Octet =>
    case LongLong =>
  }

  lemma RestFits(values: seq<Option<seq<byte>>>, index: nat)
    requires |values| == 14 && index < 14 && PropertiesFit(values, index)
    ensures PropertiesFit(values, index + 1)
    ensures values[index].Some? ==> PropertyFits(KindAt(index), values[index].value)
  {
  }

  /** The step of the reader at one property. */
  lemma SkipOne(data: seq<byte>, pos: nat, flags: nat, index: nat)
    requires index < 14 && pos <= |data|
    ensures SkipProperties(data, pos, flags, index)
         == if !Bit(flags, 15 - index) then SkipProperties(data, pos, flags, index + 1)
            else match SkipProperty(data, pos, KindAt(index))
                 case None => None
                 case Some(next) => SkipProperties(data, next, flags, index + 1)
  {
    hide SkipProperty, Bit, KindAt;
    KindsAgree(index);
  }

  lemma {:induction false} PropertiesSkipped(data: seq<byte>, pos: nat, values: seq<Option<seq<byte>>>, index: nat)
    requires |values| == 14 && index <= 14 && PropertiesFit(values, index)
    requires pos <= |data| && data[pos..] == PropertiesBytes(values, index)
    ensures SkipProperties(data, pos, 4 * Digits(values, 14), index).Some?
    decreases 14 - index
  {
    hide SkipProperty, PropertyBytes, PropertyFits, PropertiesFit, KindAt, Digits, Bit, SkipProperties;
    if index == 14 {
      NoProperties(data, pos, 4 * Digits(values, 14));
    } else {
      RestFits(values, index);
      SkipOne(data, pos, 4 * Digits(values, 14), index);
      FlagAt(values, index);
      var rest := PropertiesBytes(values, index + 1);
      if values[index].Some? {
        PropertySkipped(data, pos, KindAt(index), values[index].value, rest);
        PropertiesSkipped(data, pos + |PropertyBytes(KindAt(index), values[index].value)|, values, index + 1);
      } else {
        assert [] + rest == rest;
        PropertiesSkipped(data, pos, values, index + 1);
      }
    }
  }

  lemma NoProperties(data: seq<byte>, pos: nat, flags: nat)
    requires pos <= |data|
    ensures SkipProperties(data, pos, flags, 14).Some?
  {
  }

  lemma HeaderLayout(size: nat, values: seq<Option<seq<byte>>>)
    requires |values| == 14
    ensures var data := ContentHeader(size, values);
            && |data| >= 14 && data[..2] == [0, 60] && data[2..4] == [0, 0] && data[4..12] == ToBigEndian(size, 8)
            && data[12..14] == ToBigEndian(4 * Digits(values, 14), 2) && data[14..] == PropertiesBytes(values, 0)
  {
    hide ToBigEndian, Digits, PropertiesBytes;
    var front: seq<byte> := [0, 60, 0, 0];
    var tail := ToBigEndian(4 * Digits(values, 14), 2) + PropertiesBytes(values, 0);
    var data := front + (ToBigEndian(size, 8) + tail);
    assert data[..2] == front[..2] && data[2..4] == front[2..4];
    assert data[4..] == ToBigEndian(size, 8) + tail;
    assert data[4..12] == data[4..][..8];
    assert data[12..] == tail;
    assert data[12..14] == data[12..][..2] && data[14..] == data[12..][2..];
  }

  /** A content header with any size below 2^64 and any properties announces that size. */
  lemma SizeIsRead(frame: Frame, size: nat, values: seq<Option<seq<byte>>>)
    requires size < Pow256(8) && |values| == 14 && PropertiesFit(values, 0)
    requires frame.payload == ContentHeader(size, values)
    ensures InspectContentHeader(frame) == Ok(size)
  {
    hide Pow256, BigEndian, ToBigEndian, Digits, PropertiesBytes, SkipProperties, PropertiesFit, ContentHeader;
    var data, flags := frame.payload, 4 * Digits(values, 14);
    Widths();
    DigitsBelow(values, 14);
    PowerOfFourteen();
    BigEndianInverse(size, 8);
    BigEndianInverse(flags, 2);
    ByteOrders(0, 60);
    ByteOrders(0, 0);
    HeaderLayout(size, values);
    PropertiesSkipped(data, 14, values, 0);
  }

  lemma PowerOfFourteen()
    ensures Pow2(14) == 16384
  {
    assert Pow2(4) == 16 && Pow2(8) == 16 * Pow2(4) && Pow2(12) == 16 * Pow2(8) && Pow2(14) == 4 * Pow2(12);
  }
}

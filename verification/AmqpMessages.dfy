/** A message survives any split of its body, whatever else arrives on its channel and on others. */
module AmqpMessages {
  import opened Wrappers
  import opened Bytes
  import opened AmqpMethods
  import opened AmqpInspector
  import opened AmqpTheorems

  function Payload(frames: seq<Frame>): seq<byte> {
    if frames == [] then [] else frames[0].payload + Payload(frames[1..])
  }

  function RawLength(frames: seq<Frame>): nat {
    if frames == [] then 0 else |frames[0].raw| + RawLength(frames[1..])
  }

  /** Non-empty body frames of one direction and channel. */
  predicate Bodies(key: Key, frames: seq<Frame>) {
    forall i :: 0 <= i < |frames| ==>
      frames[i].typeID == FRAME_BODY && frames[i].channel == key.channel && frames[i].payload != []
  }

  /** A message after more of its body. */
  function Grown(open: Content, frames: seq<Frame>): Content {
    open.(received := open.received + |Payload(frames)|,
          frameBytes := open.frameBytes + RawLength(frames),
          capture := Prefix(open.capture + Payload(frames)))
  }

  lemma AppendGrows(open: Content, frame: Frame)
    requires |open.capture| <= CAPTURE_LIMIT && open.received + |frame.payload| < Pow256(8)
    ensures Append(open, frame) == Grown(open, [frame])
  {
    OneMoreFrame(frame, []);
    assert [frame] + [] == [frame] && frame.payload + [] == frame.payload;
    SmallModulo(open.received + |frame.payload|, Pow256(8));
    CaptureGrows(open.capture, frame.payload);
  }

  lemma CaptureGrows(capture: seq<byte>, payload: seq<byte>)
    requires |capture| <= CAPTURE_LIMIT
    ensures Prefix(capture + payload)
         == if |capture| < CAPTURE_LIMIT then capture + payload[..Min(CAPTURE_LIMIT - |capture|, |payload|)] else capture
  {
    if |capture + payload| > CAPTURE_LIMIT {
      assert (capture + payload)[..CAPTURE_LIMIT] == capture + payload[..CAPTURE_LIMIT - |capture|];
      assert capture + payload[..0] == capture;
    } else {
      assert payload[..|payload|] == payload;
      assert |capture| == CAPTURE_LIMIT ==> payload == [] && capture + payload == capture;
    }
  }

  lemma SmallModulo(value: nat, modulus: nat)
    requires value < modulus
    ensures value % modulus == value
  {
  }

  lemma GrownTwice(open: Content, frame: Frame, rest: seq<Frame>)
    ensures Grown(Grown(open, [frame]), rest) == Grown(open, [frame] + rest)
    ensures Payload([frame] + rest) == frame.payload + Payload(rest)
  {
    OneMoreFrame(frame, rest);
    OneMoreFrame(frame, []);
    assert [frame] + [] == [frame] && frame.payload + [] == frame.payload;
    var whole := open.capture + frame.payload;
    assert open.capture + (frame.payload + Payload(rest)) == whole + Payload(rest);
    PrefixOfPrefix(whole, Payload(rest));
  }

  lemma OneMoreFrame(frame: Frame, rest: seq<Frame>)
    ensures Payload([frame] + rest) == frame.payload + Payload(rest)
    ensures RawLength([frame] + rest) == |frame.raw| + RawLength(rest)
    ensures Payload([]) == [] && RawLength([]) == 0
  {
    var all := [frame] + rest;
    assert all[0] == frame && all[1..] == rest;
    assert Payload(all) == all[0].payload + Payload(all[1..]);
    assert RawLength(all) == |all[0].raw| + RawLength(all[1..]);
  }

  lemma NonEmptyBodies(key: Key, frames: seq<Frame>)
    requires Bodies(key, frames)
    ensures frames == [] <==> Payload(frames) == []
  {
    if frames != [] {
      assert |frames[0].payload| > 0;
    }
  }

  // ----- what a key sees -----------------------------------------------------------------------

  /** A frame observed in the key's direction on its channel. */
  predicate Touches(input: Input, key: Key) {
    input.Observed? && input.direction == key.direction && input.frame.channel == key.channel
  }

  function FramesOf(inputs: seq<Input>, key: Key): seq<Frame>
    decreases |inputs|
  {
    if inputs == [] then []
    else (if Touches(inputs[0], key) then [inputs[0].frame] else []) + FramesOf(inputs[1..], key)
  }

  /** What one input records. */
  function RecordsOfStep(s: State, input: Input): seq<Record> {
    var after := Step(s, input).records;
    if |after| >= |s.records| then after[|s.records|..] else []
  }

  /** What the frames of a key record, in the order they arrive. */
  function RecordsBy(s: State, inputs: seq<Input>, key: Key): seq<Record>
    decreases |inputs|
  {
    if inputs == [] then []
    else (if Touches(inputs[0], key) then RecordsOfStep(s, inputs[0]) else []) + RecordsBy(Step(s, inputs[0]), inputs[1..], key)
  }

  /** Any other input leaves the key's message alone. */
  lemma UntouchedContent(s: State, input: Input, key: Key)
    requires Sound(s) && !Touches(input, key)
    ensures Sound(Step(s, input)) && ContentAt(Step(s, input), key) == ContentAt(s, key)
  {
    hide Step, MethodEffect, HeaderEffect, BodyEffect, QueueSound, ContentSound, InspectMethod, PendingOn, ContentAt, Synchronous;
    StepKeepsSound(s, input);
    StepFollows(s, input);
  }

  lemma TouchedContent(s: State, input: Input, key: Key)
    requires Sound(s) && Touches(input, key)
    ensures var e := EffectOf(PendingOn(s, key.channel), ContentAt(s, key), input);
            && Sound(Step(s, input)) && ContentAt(Step(s, input), key) == e.content
            && RecordsOfStep(s, input) == e.emitted
  {
    hide Step, EffectOf, QueueSound, ContentSound, PendingOn, ContentAt;
    StepKeepsSound(s, input);
    StepFollows(s, input);
    assert KeyOf(input) == key;
  }

  lemma SkipInput(s: State, inputs: seq<Input>, key: Key)
    requires inputs != [] && !Touches(inputs[0], key)
    ensures FramesOf(inputs, key) == FramesOf(inputs[1..], key)
    ensures RecordsBy(s, inputs, key) == RecordsBy(Step(s, inputs[0]), inputs[1..], key)
  {
    hide Step;
  }

  lemma TakeInput(s: State, inputs: seq<Input>, key: Key)
    requires inputs != [] && Touches(inputs[0], key)
    ensures FramesOf(inputs, key) == [inputs[0].frame] + FramesOf(inputs[1..], key)
    ensures RecordsBy(s, inputs, key) == RecordsOfStep(s, inputs[0]) + RecordsBy(Step(s, inputs[0]), inputs[1..], key)
  {
    hide Step;
  }

  lemma FramesNeedInputs(inputs: seq<Input>, key: Key)
    requires FramesOf(inputs, key) != []
    ensures inputs != []
  {
  }

  /** Without a frame of the key nothing of it changes. */
  lemma {:induction false} NoFrames(s: State, inputs: seq<Input>, key: Key)
    requires Sound(s) && FramesOf(inputs, key) == []
    ensures RecordsBy(s, inputs, key) == [] && ContentAt(Run(s, inputs), key) == ContentAt(s, key)
    decreases |inputs|
  {
    hide Step, Sound, ContentAt;
    if inputs != [] {
      if Touches(inputs[0], key) {
        TakeInput(s, inputs, key);
      }
      SkipInput(s, inputs, key);
      UntouchedContent(s, inputs[0], key);
      NoFrames(Step(s, inputs[0]), inputs[1..], key);
    }
  }

  // ----- bodies --------------------------------------------------------------------------------

  lemma AppendedBody(open: Content, frame: Frame, queue: seq<Event>, input: Input)
    requires input.Observed? && input.frame == frame && frame.typeID == FRAME_BODY
    requires |open.capture| <= CAPTURE_LIMIT && open.received + |frame.payload| <= open.bodySize < Pow256(8) && open.bodySize > 0
    ensures var e, grown := EffectOf(queue, Some(open), input), Grown(open, [frame]);
            if grown.received < open.bodySize then e.content == Some(grown) && e.emitted == []
            else e.content == None && e.emitted == [Message(grown, NoProblem)]
  {
    hide Append, Pow256, Grown;
    AppendGrows(open, frame);
    GrownSizes(open, [frame]);
    OneMoreFrame(frame, []);
    assert [frame] + [] == [frame] && frame.payload + [] == frame.payload;
  }

  lemma GrownSizes(open: Content, frames: seq<Frame>)
    ensures var grown := Grown(open, frames);
            && grown.received == open.received + |Payload(frames)| && grown.bodySize == open.bodySize
            && |grown.capture| <= CAPTURE_LIMIT
  {
  }

  /** Body frames of a key, whatever else arrives: nothing is recorded until the last byte, then exactly one message. */
  lemma {:induction false} BodiesAssemble(s: State, key: Key, inputs: seq<Input>, frames: seq<Frame>)
    requires Sound(s) && FramesOf(inputs, key) == frames && Bodies(key, frames) && ContentAt(s, key).Some?
    requires var open := ContentAt(s, key).value;
             && open.received + |Payload(frames)| <= open.bodySize < Pow256(8)
             && open.received < open.bodySize && |open.capture| <= CAPTURE_LIMIT
    ensures var full := Grown(ContentAt(s, key).value, frames);
            if full.received < full.bodySize then
              RecordsBy(s, inputs, key) == [] && ContentAt(Run(s, inputs), key) == Some(full)
            else
              RecordsBy(s, inputs, key) == [Message(full, NoProblem)] && ContentAt(Run(s, inputs), key) == None
    decreases |inputs|
  {
    hide Step, Sound, ContentAt, EffectOf, Grown, Payload, RawLength, FramesOf, RecordsBy, Touches, RecordsOfStep, Pow256;
    var open := ContentAt(s, key).value;
    if inputs == [] {
      NoFramesIn(s, key, frames, open);
    } else {
      var next := Step(s, inputs[0]);
      if Touches(inputs[0], key) {
        TakeInput(s, inputs, key);
        TouchedContent(s, inputs[0], key);
        var frame, rest := inputs[0].frame, FramesOf(inputs[1..], key);
        assert frames[0] == frame && frames[1..] == rest;
        FirstBody(key, frame, rest, frames);
        GrownTwice(open, frame, rest);
        GrownSizes(open, [frame]);
        GrownSizes(Grown(open, [frame]), rest);
        OneMoreFrame(frame, []);
        assert [frame] + [] == [frame] && frame.payload + [] == frame.payload;
        TouchedBody(inputs[0], key);
        AppendedBody(open, frame, PendingOn(s, key.channel), inputs[0]);
        if open.received + |frame.payload| < open.bodySize {
          BodiesAssemble(next, key, inputs[1..], rest);
        } else {
          NonEmptyBodies(key, rest);
          GrownByNothing(Grown(open, [frame]));
          NoFrames(next, inputs[1..], key);
        }
      } else {
        SkipInput(s, inputs, key);
        UntouchedContent(s, inputs[0], key);
        BodiesAssemble(next, key, inputs[1..], frames);
      }
    }
  }

  lemma TouchedBody(input: Input, key: Key)
    requires Touches(input, key)
    ensures input.Observed?
  {
  }

  lemma FirstBody(key: Key, frame: Frame, rest: seq<Frame>, frames: seq<Frame>)
    requires frames == [frame] + rest && Bodies(key, frames)
    ensures frame.typeID == FRAME_BODY && Bodies(key, rest)
  {
    assert frames[0] == frame;
    assert forall i :: 0 <= i < |rest| ==> rest[i] == frames[i + 1];
  }

  lemma GrownByNothing(open: Content)
    requires |open.capture| <= CAPTURE_LIMIT
    ensures Grown(open, []) == open
  {
    assert open.capture + [] == open.capture;
  }

  lemma NoFramesIn(s: State, key: Key, frames: seq<Frame>, open: Content)
    requires frames == FramesOf([], key) && |open.capture| <= CAPTURE_LIMIT
    ensures frames == [] && Grown(open, frames) == open && RecordsBy(s, [], key) == []
  {
    hide Grown;
    GrownByNothing(open);
  }

  // ----- whole messages ------------------------------------------------------------------------

  /** The message that a method, a header and body frames make; `request` is the get it answers. */
  function Assembled(event: Event, request: Option<Event>, header: Frame, frames: seq<Frame>): Content {
    Content(event, request, |Payload(frames)|, |Payload(frames)|, Prefix(Payload(frames)),
            |event.frame.raw| + |header.raw| + RawLength(frames))
  }

  predicate Opens(start: Frame) {
    start.typeID == FRAME_METHOD && InspectMethod(start).carriesContent
  }

  predicate Announces(header: Frame, size: nat) {
    header.typeID == FRAME_HEADER && InspectContentHeader(header) == Ok(size)
  }

  /** From the header on. */
  lemma {:induction false} HeaderAndBodies(s: State, key: Key, inputs: seq<Input>, header: Frame, frames: seq<Frame>)
    requires Sound(s) && FramesOf(inputs, key) == [header] + frames && Bodies(key, frames)
    requires ContentAt(s, key).Some? && ContentAt(s, key).value.received == 0 && ContentAt(s, key).value.capture == []
    requires Announces(header, |Payload(frames)|)
    ensures var open := ContentAt(s, key).value;
            var full := open.(bodySize := |Payload(frames)|, received := |Payload(frames)|, capture := Prefix(Payload(frames)),
                              frameBytes := open.frameBytes + |header.raw| + RawLength(frames));
            RecordsBy(s, inputs, key) == [Message(full, NoProblem)] && ContentAt(Run(s, inputs), key) == None
    decreases |inputs|
  {
    hide Step, Sound, ContentAt, EffectOf, Payload, RawLength, FramesOf, RecordsBy, Touches, RecordsOfStep, InspectContentHeader, Prefix;
    var open := ContentAt(s, key).value;
    FramesNeedInputs(inputs, key);
    if Touches(inputs[0], key) {
      TakeInput(s, inputs, key);
      TouchedContent(s, inputs[0], key);
      assert ([header] + frames)[0] == header && ([header] + frames)[1..] == frames;
      assert inputs[0].frame == header && FramesOf(inputs[1..], key) == frames;
      TouchedBody(inputs[0], key);
      SizedContent(open, header, PendingOn(s, key.channel), inputs[0], |Payload(frames)|);
      var sized := open.(bodySize := |Payload(frames)|, frameBytes := open.frameBytes + |header.raw|);
      NonEmptyBodies(key, frames);
      GrownFromStart(sized, frames);
      if frames == [] {
        NoFrames(Step(s, inputs[0]), inputs[1..], key);
      } else {
        BodiesAssemble(Step(s, inputs[0]), key, inputs[1..], frames);
      }
    } else {
      SkipInput(s, inputs, key);
      UntouchedContent(s, inputs[0], key);
      HeaderAndBodies(Step(s, inputs[0]), key, inputs[1..], header, frames);
    }
  }

  lemma GrownFromStart(sized: Content, frames: seq<Frame>)
    requires sized.received == 0 && sized.capture == []
    ensures Grown(sized, frames)
         == sized.(received := |Payload(frames)|, capture := Prefix(Payload(frames)), frameBytes := sized.frameBytes + RawLength(frames))
    ensures frames == [] ==> Payload(frames) == [] && Prefix(Payload(frames)) == [] && RawLength(frames) == 0
  {
    assert [] + Payload(frames) == Payload(frames);
  }

  lemma SizedContent(open: Content, header: Frame, queue: seq<Event>, input: Input, size: nat)
    requires input.Observed? && input.frame == header && Announces(header, size)
    ensures var e := EffectOf(queue, Some(open), input);
            var sized := open.(bodySize := size, frameBytes := open.frameBytes + |header.raw|);
            size < Pow256(8)
            && (if size == 0 then e.content == None && e.emitted == [Message(sized, NoProblem)]
                else e.content == Some(sized) && e.emitted == [])
  {
  }

  /**
   A content method, its header and a body in any split into non-empty frames, with anything of the other
   direction, of other channels or about to be sent in between: the key's frames record exactly one message, besides
   one for a message that was cut off before. It holds the body's first 256 KiB and is truncated exactly when there was more.
   */
  lemma {:induction false} MessageSurvivesAnySplit(s: State, key: Key, inputs: seq<Input>, start: Frame, header: Frame, frames: seq<Frame>)
    requires Sound(s) && FramesOf(inputs, key) == [start, header] + frames && Bodies(key, frames)
    requires Opens(start) && Announces(header, |Payload(frames)|)
    ensures exists started: nat, request ::
              var message := Assembled(EventOf(start, started), request, header, frames);
              && (request.Some? ==> started == request.value.started)
              && RecordsBy(s, inputs, key)
                 == (if ContentAt(s, key).Some? then [Message(ContentAt(s, key).value, Superseded)] else []) + [Message(message, NoProblem)]
              && |message.capture| == Min(|Payload(frames)|, 256 * 1024) && message.capture <= Payload(frames)
              && (message.bodySize > |message.capture| <==> |Payload(frames)| > 256 * 1024)
    ensures ContentAt(Run(s, inputs), key) == None
    decreases |inputs|
  {
    hide Step, Sound, ContentAt, EffectOf, Payload, RawLength, FramesOf, RecordsBy, Touches, RecordsOfStep, InspectMethod, Announces, Opens;
    FramesNeedInputs(inputs, key);
    if Touches(inputs[0], key) {
      TakeInput(s, inputs, key);
      TouchedContent(s, inputs[0], key);
      var all := [start, header] + frames;
      assert all[0] == start && all[1..] == [header] + frames;
      assert inputs[0].frame == start && FramesOf(inputs[1..], key) == [header] + frames;
      TouchedBody(inputs[0], key);
      var queue := PendingOn(s, key.channel);
      OpenedContent(queue, ContentAt(s, key), inputs[0], start);
      var begun := EffectOf(queue, ContentAt(s, key), inputs[0]).content.value;
      HeaderAndBodies(Step(s, inputs[0]), key, inputs[1..], header, frames);
      assert Assembled(EventOf(start, begun.event.started), begun.request, header, frames)
          == begun.(bodySize := |Payload(frames)|, received := |Payload(frames)|, capture := Prefix(Payload(frames)),
                     frameBytes := begun.frameBytes + |header.raw| + RawLength(frames));
    } else {
      SkipInput(s, inputs, key);
      UntouchedContent(s, inputs[0], key);
      MessageSurvivesAnySplit(Step(s, inputs[0]), key, inputs[1..], start, header, frames);
    }
  }

  lemma OpenedContent(queue: seq<Event>, content: Option<Content>, input: Input, start: Frame)
    requires input.Observed? && input.frame == start && Opens(start)
    ensures var e := EffectOf(queue, content, input);
            && e.content.Some?
            && (var begun := e.content.value;
                && begun == Content(EventOf(start, begun.event.started), begun.request, 0, 0, [], |start.raw|)
                && (begun.request.Some? ==> begun.event.started == begun.request.value.started))
            && e.emitted == if content.Some? then [Message(content.value, Superseded)] else []
  {
    hide InspectMethod, FindRequest;
  }
}

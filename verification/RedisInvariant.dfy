/** Every action of every goroutine keeps the pipeline's invariant. */
module RedisInvariant {
  import opened Wrappers
  import opened RedisPipeline

  // ----- sequence facts ------------------------------------------------------------------------

  lemma {:induction false} RepliesConcat(a: seq<Written>, b: seq<Written>)
    ensures Replies(a + b) == Replies(a) + Replies(b)
  {
    if b == [] {
      assert a + b == a;
    } else {
      assert (a + b)[..|a + b| - 1] == a + b[..|b| - 1];
      RepliesConcat(a, b[..|b| - 1]);
    }
  }

  lemma RepliesOne(w: Written)
    ensures Replies([w]) == if w.push then [] else [w.raw]
  {
    assert [w][..0] == [];
  }

  lemma OutputSnoc(output: seq<Written>, w: Written)
    ensures Replies(output + [w]) == Replies(output) + (if w.push then [] else [w.raw])
    ensures Described(output + [w])
         == Described(output) + [if w.push then Metadata(w.raw) else Exchange(|Replies(output)|, w.raw)]
  {
    assert (output + [w])[..|output|] == output;
  }

  lemma {:induction false} ForwardsMonotone(c: Config, a: nat, b: nat)
    requires a <= b <= |c.requests|
    ensures Forwards(c, a) <= Forwards(c, b)
    ensures Commands(c, a) <= Commands(c, b)
  {
    if a < b {
      ForwardsMonotone(c, a, b - 1);
    }
  }

  lemma {:induction false} AnswersStable(c: Config, replies: seq<string>, raw: string, n: nat)
    requires n <= |c.requests| && Forwards(c, n) <= |replies|
    ensures Answers(c, replies + [raw], n) == Answers(c, replies, n)
  {
    if n > 0 {
      AnswersStable(c, replies, raw, n - 1);
    }
  }

  // ----- preservation --------------------------------------------------------------------------

  lemma ReadRequestKeeps(c: Config, s: State)
    requires Proper(c) && Inv(c, s) && Enabled(c, s, ReadRequest)
    ensures Inv(c, Apply(c, s, ReadRequest))
  {
    hide Replies, Described, Answers, Proper, InFlight;
    ForwardsMonotone(c, s.next, s.next + 1);
    ArrivalsKeep(c, s, Apply(c, s, ReadRequest));
  }

  /** Steps on the request side leave the frames on their way to the client alone. */
  lemma ArrivalsKeep(c: Config, s: State, t: State)
    requires Placed(c, s) && Placed(c, t) && InFlight(c, s)
    requires t.output == s.output && t.records == s.records && t.replies == s.replies
    requires t.responses == s.responses && t.held == s.held && t.wire == s.wire
    ensures InFlight(c, t)
  {
    hide Replies, Described, Answers, Forwards, Commands;
  }

  lemma SendCommandKeeps(c: Config, s: State)
    requires Inv(c, s) && Enabled(c, s, SendCommand)
    ensures Inv(c, Apply(c, s, SendCommand))
  {
    hide Replies, Described, Answers, Forwards, Commands, InFlight;
    ArrivalsKeep(c, s, Apply(c, s, SendCommand));
  }

  lemma WriteUpstreamKeeps(c: Config, s: State)
    requires Inv(c, s) && Enabled(c, s, WriteUpstream)
    ensures Inv(c, Apply(c, s, WriteUpstream))
  {
    hide Replies, Described, Answers, Forwards, Commands, InFlight;
    ForwardsMonotone(c, s.next - 1, s.next);
    CommandSent(c, s.next - 1);
    ArrivalsKeep(c, s, Apply(c, s, WriteUpstream));
  }

  lemma CommandSent(c: Config, i: nat)
    requires i < |c.requests|
    ensures Commands(c, i + 1)
         == Commands(c, i) + (if c.requests[i].forward != "" then [c.requests[i].forward] else [])
    ensures Forwards(c, i + 1) == Forwards(c, i) + (if c.requests[i].forward != "" then 1 else 0)
  {
  }

  lemma OtherReaderStepsKeep(c: Config, s: State, step: Step)
    requires Inv(c, s) && Enabled(c, s, step)
    requires step in {Proceed, ReaderFails, TakeIssue, Stop}
    ensures Inv(c, Apply(c, s, step))
  {
    hide Replies, Described, Answers, Forwards, Commands, InFlight;
    var t := Apply(c, s, step);
    assert t == s.(reader := t.reader, phase := t.phase);
    ArrivalsKeep(c, s, t);
  }

  /** The replies on their way: in the channel, in the upstream reader's hand and on the wire. */
  function Travelling(s: State): seq<Written> {
    s.responses + (if s.held.Some? then [s.held.value] else []) + s.wire
  }

  lemma UpstreamRepliesKeeps(c: Config, s: State, raw: string)
    requires Inv(c, s) && Enabled(c, s, UpstreamReplies(raw))
    ensures Inv(c, Apply(c, s, UpstreamReplies(raw)))
  {
    hide Replies, Described, Answers, Forwards, Commands;
    var s' := Apply(c, s, UpstreamReplies(raw));
    AnswersStable(c, s.replies, raw, Answered(s));
    assert Travelling(s') == Travelling(s) + [Written(raw, false)];
    RepliesConcat(Travelling(s), [Written(raw, false)]);
    RepliesOne(Written(raw, false));
  }

  /** Moving frames towards the client keeps the invariant as long as no reply is lost, added or answered. */
  lemma DeliveryKeeps(c: Config, s: State, t: State)
    requires Inv(c, s)
    requires t == s.(responses := t.responses, held := t.held, wire := t.wire, output := t.output, records := t.records)
    requires Replies(Travelling(t)) == Replies(Travelling(s))
    requires Replies(t.output) == Replies(s.output) && t.records == Described(t.output)
    ensures Inv(c, t)
  {
    hide Replies, Described, Answers, Forwards, Commands;
  }

  lemma PushArrives(c: Config, s: State, raw: string)
    requires Enabled(c, s, UpstreamPushes(raw))
    ensures var t := Apply(c, s, UpstreamPushes(raw));
            t == s.(wire := t.wire) && Replies(Travelling(t)) == Replies(Travelling(s))
  {
    hide Replies;
    var t := Apply(c, s, UpstreamPushes(raw));
    assert Travelling(t) == Travelling(s) + [Written(raw, true)];
    RepliesConcat(Travelling(s), [Written(raw, true)]);
    RepliesOne(Written(raw, true));
  }

  lemma FrameMoves(c: Config, s: State, step: Step)
    requires Enabled(c, s, step) && step in {ReadResponse, PassResponse}
    ensures var t := Apply(c, s, step);
            t == s.(responses := t.responses, held := t.held, wire := t.wire) && Travelling(t) == Travelling(s)
  {
  }

  lemma InvRecords(c: Config, s: State)
    requires Inv(c, s)
    ensures s.records == Described(s.output)
  {
    hide Replies, Described, Answers, Forwards, Commands, Placed, Handshake, Sent;
  }

  lemma TakeCommandKeeps(c: Config, s: State)
    requires Inv(c, s) && Enabled(c, s, TakeCommand)
    ensures Inv(c, Apply(c, s, TakeCommand))
  {
    hide Replies, Described, Answers, Commands, InFlight;
    ForwardsMonotone(c, Seen(s), Seen(s) + 1);
    ArrivalsKeep(c, s, Apply(c, s, TakeCommand));
  }

  lemma FlushLocalKeeps(c: Config, s: State)
    requires Proper(c) && Inv(c, s) && Enabled(c, s, FlushLocal)
    ensures Inv(c, Apply(c, s, FlushLocal))
  {
    hide Replies, Described, Commands, Forwards, Answers;
    assert s.queue[0] == PendingOf(c, Answered(s));
    LocalAnswer(c, s.replies, Answered(s));
    OutputSnoc(s.output, Written(s.queue[0].local, false));
  }

  lemma AuthenticateKeeps(c: Config, s: State)
    requires Proper(c) && Inv(c, s) && Enabled(c, s, Authenticate)
    ensures Inv(c, Apply(c, s, Authenticate))
  {
    hide Replies, Described, Forwards, Answers, Commands;
    OutputSnoc(s.output, Written(c.requests[s.next].local, false));
    ForwardsMonotone(c, s.next, s.next + 1);
    if c.requests[s.next].forward == "" {
      LocalAnswer(c, s.replies, s.next);
    }
  }

  lemma TakeResponseKeeps(c: Config, s: State)
    requires Proper(c) && Inv(c, s) && Enabled(c, s, TakeResponse)
    ensures Inv(c, Apply(c, s, TakeResponse))
  {
    hide Inv, Apply, Travelling, Described, Replies;
    if s.responses[0].push {
      InvRecords(c, s);
      PushIsTaken(c, s);
      DeliveryKeeps(c, s, Apply(c, s, TakeResponse));
    } else {
      TakeReplyKeeps(c, s);
    }
  }

  lemma PushIsTaken(c: Config, s: State)
    requires Enabled(c, s, TakeResponse) && s.responses[0].push && s.records == Described(s.output)
    ensures var t := Apply(c, s, TakeResponse);
            && t == s.(responses := t.responses, output := t.output, records := t.records)
            && Replies(Travelling(t)) == Replies(Travelling(s))
            && Replies(t.output) == Replies(s.output) && t.records == Described(t.output)
  {
    hide Replies, Described;
    var rest := Travelling(Apply(c, s, TakeResponse));
    OutputSnoc(s.output, s.responses[0]);
    assert Travelling(s) == [s.responses[0]] + rest;
    RepliesConcat([s.responses[0]], rest);
    RepliesOne(s.responses[0]);
    assert [] + Replies(rest) == Replies(rest);
  }

  lemma LocalAnswer(c: Config, replies: seq<string>, i: nat)
    requires i < |c.requests| && c.requests[i].forward == "" && Forwards(c, i) <= |replies|
    ensures Forwards(c, i + 1) == Forwards(c, i)
    ensures Answers(c, replies, i + 1) == Answers(c, replies, i) + [c.requests[i].local]
    ensures Commands(c, i + 1) == Commands(c, i)
  {
  }

  lemma ForwardedAnswer(c: Config, replies: seq<string>, i: nat)
    requires i < |c.requests| && c.requests[i].forward != "" && Forwards(c, i) < |replies|
    ensures Forwards(c, i + 1) == Forwards(c, i) + 1
    ensures Answers(c, replies, i + 1) == Answers(c, replies, i) + [replies[Forwards(c, i)]]
  {
  }

  lemma TakeReplyKeeps(c: Config, s: State)
    requires Proper(c) && Inv(c, s) && Enabled(c, s, TakeResponse) && !s.responses[0].push
    ensures Inv(c, Apply(c, s, TakeResponse))
  {
    hide Replies, Described, Commands, Answers, Forwards;
    var rest := Travelling(Apply(c, s, TakeResponse));
    OutputSnoc(s.output, s.responses[0]);
    assert Travelling(s) == [s.responses[0]] + rest;
    RepliesConcat([s.responses[0]], rest);
    RepliesOne(s.responses[0]);
    ResponseMeetsItsRequest(c, s);
    ForwardedAnswer(c, s.replies, Answered(s));
    assert ([s.responses[0].raw] + Replies(rest))[1..] == Replies(rest);
  }

  /** The reply at the head of the channel is the upstream's next. */
  lemma FirstReply(c: Config, s: State)
    requires Inv(c, s) && s.responses != [] && !s.responses[0].push
    ensures Forwards(c, Answered(s)) < |s.replies| && s.responses[0].raw == s.replies[Forwards(c, Answered(s))]
  {
    hide Replies, Described, Answers, Handshake, Sent, Forwards;
    assert Travelling(s) == [s.responses[0]] + Travelling(s)[1..];
    RepliesConcat([s.responses[0]], Travelling(s)[1..]);
    RepliesOne(s.responses[0]);
    assert s.replies[Forwards(c, Answered(s))..][0] == s.responses[0].raw;
  }

  /** When a reply is taken, the queue is not empty and its head is the command being replied to. */
  lemma ResponseMeetsItsRequest(c: Config, s: State)
    requires Proper(c) && Inv(c, s) && Enabled(c, s, TakeResponse) && !s.responses[0].push
    ensures s.queue != [] && s.queue[0] == PendingOf(c, Answered(s)) && s.queue[0].forward != ""
    ensures Forwards(c, Answered(s)) < |s.replies| && s.responses[0].raw == s.replies[Forwards(c, Answered(s))]
    ensures s.queue[0].forward == s.received[Forwards(c, Answered(s))]
  {
    hide Replies, Described, Answers, Handshake;
    FirstReply(c, s);
    ForwardsMonotone(c, Answered(s), Seen(s));
    ForwardsMonotone(c, Answered(s) + 1, s.next);
  }

  lemma StepKeeps(c: Config, s: State, step: Step)
    requires Proper(c) && Inv(c, s) && Enabled(c, s, step)
    ensures Inv(c, Apply(c, s, step))
  {
    hide Inv, Apply, Proper, Enabled, Travelling, Described, Replies;
    match step {
      case Authenticate => AuthenticateKeeps(c, s);
      case ReadRequest => ReadRequestKeeps(c, s);
      case SendCommand => SendCommandKeeps(c, s);
      case Proceed => OtherReaderStepsKeep(c, s, step);
      case WriteUpstream => WriteUpstreamKeeps(c, s);
      case ReaderFails => OtherReaderStepsKeep(c, s, step);
      case UpstreamReplies(raw) => UpstreamRepliesKeeps(c, s, raw);
      case UpstreamPushes(raw) =>
        InvRecords(c, s);
        PushArrives(c, s, raw);
        DeliveryKeeps(c, s, Apply(c, s, step));
      case ReadResponse =>
        InvRecords(c, s);
        FrameMoves(c, s, step);
        DeliveryKeeps(c, s, Apply(c, s, step));
      case PassResponse =>
        InvRecords(c, s);
        FrameMoves(c, s, step);
        DeliveryKeeps(c, s, Apply(c, s, step));
      case FlushLocal => FlushLocalKeeps(c, s);
      case TakeCommand => TakeCommandKeeps(c, s);
      case TakeResponse => TakeResponseKeeps(c, s);
      case TakeIssue => OtherReaderStepsKeep(c, s, step);
      case Stop => OtherReaderStepsKeep(c, s, step);
    }
  }

  // ----- whole runs ----------------------------------------------------------------------------

  lemma {:induction false} RunKeeps(c: Config, run: seq<Step>)
    requires Proper(c) && Execute(c, run).Some?
    ensures Inv(c, Execute(c, run).value)
  {
    hide Apply, Enabled, Proper;
    if run != [] {
      var before := run[..|run| - 1];
      RunKeeps(c, before);
      StepKeeps(c, Execute(c, before).value, run[|run| - 1]);
    }
  }
}

/**
 The Redis connection as a protocol between a request reader, an upstream reader, the main loop
 and the upstream itself. Every atomic action of each of them is one Step; a run is any
 interleaving. Writing a whole frame or command counts as one action.
 */
module RedisPipeline {
  import opened Wrappers

  const MAX_PENDING: nat := 1024
  const MAX_RESPONSES: nat := 32

  /** What inspecting a request decides: one of the two answers, and the authentication afterwards. */
  datatype Inspected = Inspected(forward: string, local: string, authenticated: bool)

  /** The requests the client will send, as inspected in order, and whether it must authenticate. */
  datatype Config = Config(requests: seq<Inspected>, authenticated: bool)

  predicate Proper(c: Config) {
    forall i :: 0 <= i < |c.requests| ==> (c.requests[i].forward == "" <==> c.requests[i].local != "")
  }

  /** A queued command; its index names its `accepted` channel. */
  datatype Pending = Pending(index: nat, forward: string, local: string)

  datatype ReaderState =
    | Idle
    | Sending(item: Pending)
    | Waiting(item: Pending)
    | Writing(item: Pending)
    | Failed

  datatype Phase = Authenticating | Piped | Stopped

  datatype Written = Written(raw: string, push: bool)

  datatype Record =
    | Exchange(index: nat, response: string)
    | Metadata(response: string)
    | Unsolicited(response: string)

  datatype State = State(
    phase: Phase,
    next: nat,                   // requests read so far
    reader: ReaderState,
    commands: seq<Pending>,      // the commands channel
    accepted: set<nat>,          // closed `accepted` channels
    queue: seq<Pending>,         // owned by the main loop
    received: seq<string>,       // commands written to the upstream
    replies: seq<string>,        // non-push replies the upstream has sent
    wire: seq<Written>,          // sent by the upstream, not yet read
    held: Option<Written>,       // read by the upstream reader, not yet passed on
    responses: seq<Written>,     // the responses channel
    output: seq<Written>,        // frames written to the client
    records: seq<Record>)

  datatype Step =
    | Authenticate
    | ReadRequest
    | SendCommand
    | Proceed
    | WriteUpstream
    | ReaderFails
    | UpstreamReplies(raw: string)
    | UpstreamPushes(raw: string)
    | ReadResponse
    | PassResponse
    | FlushLocal
    | TakeCommand
    | TakeResponse
    | TakeIssue
    | Stop

  function Start(c: Config): State {
    State(if c.authenticated then Piped else Authenticating,
          0, Idle, [], {}, [], [], [], [], None, [], [], [])
  }

  function PendingOf(c: Config, i: nat): Pending
    requires i < |c.requests|
  {
    Pending(i, c.requests[i].forward, c.requests[i].local)
  }

  predicate HeadIsLocal(s: State) {
    s.queue != [] && s.queue[0].local != ""
  }

  /** When an action can happen. Only `Stop` can happen in every live state. */
  predicate Enabled(c: Config, s: State, step: Step) {
    s.phase != Stopped &&
    match step
    case Authenticate => s.phase == Authenticating && s.next < |c.requests|
    case ReadRequest => s.phase == Piped && s.reader == Idle && s.next < |c.requests|
    case SendCommand => s.reader.Sending? && |s.commands| < MAX_PENDING
    case Proceed => s.reader.Waiting? && s.reader.item.index in s.accepted
    case WriteUpstream => s.reader.Writing?
    case ReaderFails => s.phase == Piped && (s.reader == Idle || s.reader.Writing?)
    case UpstreamReplies(_) => |s.replies| < |s.received|
    case UpstreamPushes(_) => s.phase == Piped
    case ReadResponse => s.wire != [] && s.held == None
    case PassResponse => s.held.Some? && |s.responses| < MAX_RESPONSES
    case FlushLocal => HeadIsLocal(s)
    case TakeCommand => !HeadIsLocal(s) && s.commands != [] && |s.queue| < MAX_PENDING
    case TakeResponse => !HeadIsLocal(s) && s.responses != []
    case TakeIssue => !HeadIsLocal(s) && s.reader == Failed
    case Stop => true
  }

  function Apply(c: Config, s: State, step: Step): State
    requires Enabled(c, s, step)
  {
    match step
    case Authenticate =>
      var item := PendingOf(c, s.next);
      if item.forward != "" then
        s.(phase := Piped, reader := Sending(item), next := s.next + 1)
      else
        s.(phase := if c.requests[s.next].authenticated then Piped else Authenticating,
           next := s.next + 1,
           output := s.output + [Written(item.local, false)],
           records := s.records + [Exchange(item.index, item.local)])
    case ReadRequest => s.(reader := Sending(PendingOf(c, s.next)), next := s.next + 1)
    case SendCommand => s.(commands := s.commands + [s.reader.item], reader := Waiting(s.reader.item))
    case Proceed => s.(reader := Writing(s.reader.item))
    case WriteUpstream =>
      s.(received := if s.reader.item.forward != "" then s.received + [s.reader.item.forward] else s.received,
         reader := Idle)
    case ReaderFails => s.(reader := Failed)
    case UpstreamReplies(raw) => s.(replies := s.replies + [raw], wire := s.wire + [Written(raw, false)])
    case UpstreamPushes(raw) => s.(wire := s.wire + [Written(raw, true)])
    case ReadResponse => s.(held := Some(s.wire[0]), wire := s.wire[1..])
    case PassResponse => s.(responses := s.responses + [s.held.value], held := None)
    case FlushLocal =>
      s.(queue := s.queue[1..],
         output := s.output + [Written(s.queue[0].local, false)],
         records := s.records + [Exchange(s.queue[0].index, s.queue[0].local)])
    case TakeCommand =>
      s.(queue := s.queue + [s.commands[0]], commands := s.commands[1..],
         accepted := s.accepted + {s.commands[0].index})
    case TakeResponse =>
      var response := s.responses[0];
      var s' := s.(responses := s.responses[1..], output := s.output + [response]);
      if response.push then s'.(records := s.records + [Metadata(response.raw)])
      else if s.queue == [] then s'.(records := s.records + [Unsolicited(response.raw)])
      else s'.(queue := s.queue[1..], records := s.records + [Exchange(s.queue[0].index, response.raw)])
    case TakeIssue => s.(phase := Stopped)
    case Stop => s.(phase := Stopped)
  }

  /** The state after a run, if every action of it was possible when it happened. */
  function Execute(c: Config, run: seq<Step>): Option<State> {
    if run == [] then Some(Start(c))
    else
      match Execute(c, run[..|run| - 1])
      case None => None
      case Some(s) =>
        if Enabled(c, s, run[|run| - 1]) then Some(Apply(c, s, run[|run| - 1])) else None
  }

  // ----- what the client should see ------------------------------------------------------------

  /** How many of the first `n` requests are forwarded. */
  function Forwards(c: Config, n: nat): nat
    requires n <= |c.requests|
  {
    if n == 0 then 0 else Forwards(c, n - 1) + (if c.requests[n - 1].forward != "" then 1 else 0)
  }

  /** The answer to request `i`: its local reply, or the upstream's reply to that very command. */
  function Answer(c: Config, replies: seq<string>, i: nat): string
    requires i < |c.requests| && Forwards(c, i + 1) <= |replies|
  {
    if c.requests[i].forward == "" then c.requests[i].local else replies[Forwards(c, i)]
  }

  function Answers(c: Config, replies: seq<string>, n: nat): (answers: seq<string>)
    requires n <= |c.requests| && Forwards(c, n) <= |replies|
    ensures |answers| == n
  {
    if n == 0 then [] else Answers(c, replies, n - 1) + [Answer(c, replies, n - 1)]
  }

  /** The frames that are not server metadata, in order. */
  function Replies(frames: seq<Written>): seq<string> {
    if frames == [] then []
    else
      var last := frames[|frames| - 1];
      Replies(frames[..|frames| - 1]) + (if last.push then [] else [last.raw])
  }

  /** The records that describe what the client was sent. */
  function Described(output: seq<Written>): seq<Record> {
    if output == [] then []
    else
      var before, last := output[..|output| - 1], output[|output| - 1];
      Described(before) + [if last.push then Metadata(last.raw) else Exchange(|Replies(before)|, last.raw)]
  }

  /** The commands among the first `n` requests that go upstream, in order. */
  function Commands(c: Config, n: nat): (commands: seq<string>)
    requires n <= |c.requests|
    ensures |commands| == Forwards(c, n)
  {
    if n == 0 then []
    else
      Commands(c, n - 1) + (if c.requests[n - 1].forward != "" then [c.requests[n - 1].forward] else [])
  }

  // ----- the invariant -------------------------------------------------------------------------

  function Answered(s: State): nat {
    |Replies(s.output)|
  }

  /** Requests the main loop has seen: answered or in its queue. */
  function Seen(s: State): nat {
    Answered(s) + |s.queue|
  }

  function Busy(s: State): nat {
    if s.reader.Sending? || s.reader.Waiting? || s.reader.Writing? then 1 else 0
  }

  /** Where each read request is: answered, queued, in the channel, or in the reader's hands. */
  predicate Placed(c: Config, s: State) {
    && Seen(s) + |s.commands| + (if s.reader.Sending? then 1 else 0) == s.next <= |c.requests|
    && (forall j :: 0 <= j < |s.queue| ==> s.queue[j] == PendingOf(c, Answered(s) + j))
    && (forall j :: 0 <= j < |s.commands| ==> s.commands[j] == PendingOf(c, Seen(s) + j))
    && (Busy(s) == 1 ==> s.next > 0 && s.reader.item == PendingOf(c, s.next - 1))
    && (s.phase == Authenticating ==>
        s.reader == Idle && s.queue == [] && s.commands == [] && s.received == [])
  }

  /** The accepted handshake: the reader writes a command only after the main loop has queued it. */
  predicate Handshake(s: State) {
    && (forall i <- s.accepted :: i < Seen(s))
    && (s.reader.Waiting? && s.commands == [] ==> s.reader.item.index in s.accepted)
    && (s.commands != [] ==> s.reader.Waiting? && |s.commands| == 1)
    && (s.reader.Writing? ==> s.commands == [])
    && |s.queue| <= MAX_PENDING
  }

  /** The upstream received the first commands that the main loop has seen. */
  predicate Sent(c: Config, s: State)
    requires Placed(c, s)
  {
    && |s.received| <= Forwards(c, s.next) && s.received == Commands(c, s.next)[..|s.received|]
    && (s.reader != Failed ==> |s.received| == Forwards(c, s.next - Busy(s)))
    && |s.received| <= Forwards(c, Seen(s))
    && |s.replies| <= |s.received|
  }

  /** Replies reach the client in the order the upstream sent them. */
  predicate InFlight(c: Config, s: State)
    requires Placed(c, s)
  {
    && Forwards(c, Answered(s)) <= |s.replies|
    && Replies(s.responses + (if s.held.Some? then [s.held.value] else []) + s.wire)
       == s.replies[Forwards(c, Answered(s))..]
    && Replies(s.output) == Answers(c, s.replies, Answered(s))
    && s.records == Described(s.output)
  }

  predicate Inv(c: Config, s: State) {
    Placed(c, s) && Handshake(s) && Sent(c, s) && InFlight(c, s)
  }
}

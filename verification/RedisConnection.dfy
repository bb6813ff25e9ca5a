/** The connection object whose fields the three goroutines update, action by action. */
module RedisConnection {
  import opened Wrappers
  import opened RedisPipeline
  import opened RedisInvariant

  /** The main loop's flush: local replies leave the queue as long as one is at its head. */
  ghost function Flushed(c: Config, s: State): State
    decreases |s.queue|
  {
    if s.phase != Stopped && HeadIsLocal(s) then Flushed(c, Apply(c, s, FlushLocal)) else s
  }

  class Connection {
    const config: Config
    var phase: Phase
    var next: nat
    var reader: ReaderState
    var commands: seq<Pending>
    var accepted: set<nat>
    var queue: seq<Pending>
    var received: seq<string>
    var replies: seq<string>
    var wire: seq<Written>
    var held: Option<Written>
    var responses: seq<Written>
    var output: seq<Written>
    var records: seq<Record>

    ghost function View(): State
      reads this
    {
      State(phase, next, reader, commands, accepted, queue, received, replies, wire, held, responses, output, records)
    }

    constructor (config: Config)
      ensures this.config == config && View() == Start(config)
    {
      this.config := config;
      phase := if config.authenticated then Piped else Authenticating;
      next, reader, commands, accepted, queue := 0, Idle, [], {}, [];
      received, replies, wire, held, responses := [], [], [], None, [];
      output, records := [], [];
    }

    method Answer(index: nat, response: string)
      modifies this`output, this`records
      ensures output == old(output) + [Written(response, false)]
      ensures records == old(records) + [Exchange(index, response)]
    {
      output := output + [Written(response, false)];
      records := records + [Exchange(index, response)];
    }

    /** One request before the upstream is dialled. */
    method AuthenticateOne()
      requires Enabled(config, View(), Authenticate)
      modifies this
      ensures View() == Apply(config, old(View()), Authenticate)
    {
      var request := config.requests[next];
      var item := Pending(next, request.forward, request.local);
      next := next + 1;
      if item.forward != "" {
        phase, reader := Piped, Sending(item);
        return;
      }
      Answer(item.index, item.local);
      if request.authenticated {
        phase := Piped;
      }
    }

    /** The request reader's next action: read, queue, wait for acceptance, or write. */
    method ReaderStep(step: Step)
      requires step in {ReadRequest, SendCommand, Proceed, WriteUpstream, ReaderFails}
      requires Enabled(config, View(), step)
      modifies this
      ensures View() == Apply(config, old(View()), step)
    {
      match step {
        case ReadRequest =>
          var request := config.requests[next];
          reader := Sending(Pending(next, request.forward, request.local));
          next := next + 1;
        case SendCommand =>
          commands := commands + [reader.item];
          reader := Waiting(reader.item);
        case Proceed => reader := Writing(reader.item);
        case WriteUpstream =>
          if reader.item.forward != "" {
            received := received + [reader.item.forward];
          }
          reader := Idle;
        case ReaderFails => reader := Failed;
      }
    }

    /** The upstream reader moves a frame one hop. */
    method CarryResponse(step: Step)
      requires step in {ReadResponse, PassResponse}
      requires Enabled(config, View(), step)
      modifies this
      ensures View() == Apply(config, old(View()), step)
    {
      if step == ReadResponse {
        held, wire := Some(wire[0]), wire[1..];
      } else {
        responses, held := responses + [held.value], None;
      }
    }

    method FlushLocals()
      requires phase != Stopped
      modifies this
      ensures View() == Flushed(config, old(View())) && !HeadIsLocal(View()) && phase == old(phase)
    {
      while |queue| > 0 && |queue[0].local| > 0
        invariant phase == old(phase)
        invariant Flushed(config, View()) == Flushed(config, old(View()))
        decreases |queue|
      {
        var item := queue[0];
        queue := queue[1..];
        Answer(item.index, item.local);
      }
    }

    /** The main loop takes a command: it is queued before its reader may write it upstream. */
    method AcceptCommand()
      requires Enabled(config, View(), TakeCommand)
      modifies this
      ensures View() == Apply(config, old(View()), TakeCommand)
    {
      var item := commands[0];
      commands := commands[1..];
      queue := queue + [item];
      accepted := accepted + {item.index};
    }

    method ForwardResponse()
      requires Enabled(config, View(), TakeResponse)
      modifies this
      ensures View() == Apply(config, old(View()), TakeResponse)
    {
      var response := responses[0];
      responses := responses[1..];
      output := output + [response];
      if response.push {
        records := records + [Metadata(response.raw)];
      } else if |queue| == 0 {
        records := records + [Unsolicited(response.raw)];
      } else {
        records := records + [Exchange(queue[0].index, response.raw)];
        queue := queue[1..];
      }
    }

    method Halt()
      requires phase != Stopped
      modifies this`phase
      ensures View() == Apply(config, old(View()), Stop)
    {
      phase := Stopped;
    }

    /** The upstream answers the oldest command it has not answered, or sends a push. */
    method UpstreamSends(raw: string, push: bool)
      requires Enabled(config, View(), if push then UpstreamPushes(raw) else UpstreamReplies(raw))
      modifies this`replies, this`wire
      ensures View() == Apply(config, old(View()), if push then UpstreamPushes(raw) else UpstreamReplies(raw))
    {
      if !push {
        replies := replies + [raw];
      }
      wire := wire + [Written(raw, push)];
    }

    /** One action of the request reader, the upstream reader or the upstream, whichever can act; or none. */
    method OtherActs()
      requires Proper(config) && Inv(config, View()) && phase == Piped
      modifies this
      ensures Inv(config, View()) && phase == Piped
      ensures queue == old(queue) && output == old(output) && records == old(records) && accepted == old(accepted)
    {
      hide Inv, Proper;
      var step, raw: string := Stop, *;
      if {
        case reader == Idle && next < |config.requests| => step := ReadRequest;
        case reader.Sending? && |commands| < MAX_PENDING => step := SendCommand;
        case reader.Waiting? && reader.item.index in accepted => step := Proceed;
        case reader.Writing? => step := WriteUpstream;
        case reader == Idle || reader.Writing? => step := ReaderFails;
        case |replies| < |received| => step := UpstreamReplies(raw);
        case true => step := UpstreamPushes(raw);
        case wire != [] && held == None => step := ReadResponse;
        case held.Some? && |responses| < MAX_RESPONSES => step := PassResponse;
        case true => return;
      }
      StepKeeps(config, View(), step);
      if step.UpstreamReplies? || step.UpstreamPushes? {
        UpstreamSends(raw, step.UpstreamPushes?);
      } else if step == ReadResponse || step == PassResponse {
        CarryResponse(step);
      } else {
        ReaderStep(step);
      }
    }

    /** What the select of the main loop takes: a command while there is room, a response, an error or the end. */
    method Select()
      requires Proper(config) && Inv(config, View()) && phase == Piped && !HeadIsLocal(View())
      modifies this
      ensures Inv(config, View()) && phase in {Piped, Stopped}
    {
      hide Inv, Proper;
      if {
        case commands != [] && |queue| < MAX_PENDING =>
          StepKeeps(config, View(), TakeCommand);
          AcceptCommand();
        case responses != [] =>
          StepKeeps(config, View(), TakeResponse);
          ForwardResponse();
        case true =>
          StepKeeps(config, View(), Stop);
          Halt();
      }
    }

    /** Requests answered before the upstream is dialled, until one must be forwarded or the client is authenticated. */
    method AuthenticateClient()
      requires Proper(config) && Inv(config, View()) && phase == Authenticating
      modifies this
      ensures Inv(config, View()) && phase in {Piped, Stopped}
    {
      hide Inv, Proper;
      InvAnswers(config, View());
      while phase == Authenticating
        invariant Inv(config, View()) && phase in {Authenticating, Piped, Stopped}
        invariant next <= |config.requests|
        decreases |config.requests| - next, phase == Authenticating
      {
        if next < |config.requests| {
          StepKeeps(config, View(), Authenticate);
          AuthenticateOne();
        } else {
          StepKeeps(config, View(), Stop);
          Halt();
        }
      }
    }

    /**
     A whole connection, for any number of turns of the main loop and any choices of the others in each:
     its invariant holds throughout, so the client has its answers in request order, and a reply that is
     waiting finds the command it belongs to.
     */
    method Handle(paces: seq<nat>)
      requires Proper(config) && View() == Start(config)
      modifies this
      ensures Inv(config, View())
      ensures Forwards(config, Answered(View())) <= |replies|
      ensures Replies(output) == Answers(config, replies, Answered(View())) && records == Described(output)
    {
      hide Inv, Proper, Flushed;
      RunKeeps(config, []);
      if phase == Authenticating {
        AuthenticateClient();
      }
      for turn := 0 to |paces|
        invariant Inv(config, View()) && phase in {Piped, Stopped}
      {
        if phase == Stopped {
          break;
        }
        FlushedKeeps(config, View());
        FlushLocals();
        for act := 0 to paces[turn]
          invariant Inv(config, View()) && phase == Piped && !HeadIsLocal(View())
        {
          OtherActs();
        }
        Select();
      }
      InvAnswers(config, View());
    }
  }

  lemma InvAnswers(c: Config, s: State)
    requires Inv(c, s)
    ensures Answered(s) <= |c.requests| && s.next <= |c.requests| && Forwards(c, Answered(s)) <= |s.replies|
    ensures Replies(s.output) == Answers(c, s.replies, Answered(s)) && s.records == Described(s.output)
  {
    hide Handshake, Sent, Replies, Described, Answers;
  }

  /** Flushing is a run of flush actions, so it keeps the protocol's invariant. */
  lemma {:induction false} FlushedKeeps(c: Config, s: State)
    requires Proper(c) && Inv(c, s)
    ensures Inv(c, Flushed(c, s))
    decreases |s.queue|
  {
    if s.phase != Stopped && HeadIsLocal(s) {
      StepKeeps(c, s, FlushLocal);
      FlushedKeeps(c, Apply(c, s, FlushLocal));
    }
  }
}

/** What a client of a Redis listener sees: its answers, in the order of its requests. */
module RedisOrder {
  import opened Wrappers
  import opened RedisAuth
  import opened RedisPipeline
  import opened RedisInvariant
  import RedisAnswers

  /** What the channels hold fits them. */
  predicate Fits(s: State) {
    |s.queue| <= 1024 && |s.commands| <= 1024 && |s.responses| <= 32
  }

  lemma StepFits(c: Config, s: State, step: Step)
    requires Fits(s) && Enabled(c, s, step)
    ensures Fits(Apply(c, s, step))
  {
  }

  lemma {:induction false} RunFits(c: Config, run: seq<Step>, s: State)
    requires Execute(c, run) == Some(s)
    ensures Fits(s)
  {
    hide Apply, Enabled;
    if run != [] {
      var before := Execute(c, run[..|run| - 1]).value;
      RunFits(c, run[..|run| - 1], before);
      StepFits(c, before, run[|run| - 1]);
    }
  }

  /**
   In every interleaving the client gets, apart from server metadata, the answers to its requests
   in request order: request i its own local reply or the upstream's reply to that command. The
   records say the same, no reply is ever unsolicited, the upstream receives the forwarded
   commands in order, and the queue stays within its limit.
   */
  lemma AnswersInRequestOrder(c: Config, run: seq<Step>, s: State)
    requires Proper(c) && Execute(c, run) == Some(s)
    ensures && Answered(s) <= s.next <= |c.requests| && Forwards(c, Answered(s)) <= |s.replies|
            && Replies(s.output) == Answers(c, s.replies, Answered(s))
            && s.records == Described(s.output)
            && s.received <= Commands(c, s.next)
            && |s.queue| <= 1024 && |s.commands| <= 1024 && |s.responses| <= 32
  {
    RunKeeps(c, run);
    RunFits(c, run, s);
  }

  /** Nothing inside the proxy can move: what remains is up to the client, the upstream or a shutdown. */
  predicate Quiet(c: Config, s: State) {
    && !Enabled(c, s, ReadRequest) && !Enabled(c, s, SendCommand) && !Enabled(c, s, Proceed)
    && !Enabled(c, s, WriteUpstream) && !Enabled(c, s, ReadResponse) && !Enabled(c, s, PassResponse)
    && !Enabled(c, s, FlushLocal) && !Enabled(c, s, TakeCommand) && !Enabled(c, s, TakeResponse)
    && !Enabled(c, s, TakeIssue)
  }

  /** A live connection that has gone quiet, with the upstream owing nothing, has answered every request. */
  lemma QuietMeansAllAnswered(c: Config, run: seq<Step>, s: State)
    requires Proper(c) && Execute(c, run) == Some(s)
    requires s.phase == Piped && Quiet(c, s) && |s.replies| == |s.received|
    ensures Answered(s) == |c.requests| && Forwards(c, |c.requests|) <= |s.replies|
    ensures Replies(s.output) == Answers(c, s.replies, |c.requests|)
  {
    hide Execute, Quiet, Enabled, Apply, Described, Answers, Commands, Forwards, Replies;
    RunKeeps(c, run);
    NothingTravels(c, s);
    AllReceived(c, s);
    if s.queue != [] {
      QueueOwesReply(c, s);
    }
  }

  /** With nothing on its way and nothing owed, every forwarded request of the queue would have to be unanswered. */
  lemma AllReceived(c: Config, s: State)
    requires Inv(c, s) && Travelling(s) == [] && |s.replies| == |s.received|
    ensures |s.replies| == Forwards(c, Answered(s))
  {
    hide Described, Answers, Commands, Forwards, Handshake, Sent;
    assert Replies([]) == [];
    assert |s.replies[Forwards(c, Answered(s))..]| == |s.replies| - Forwards(c, Answered(s));
  }

  /** A queue whose head is forwarded has had a command written for it that no reply has come to. */
  lemma QueueOwesReply(c: Config, s: State)
    requires Inv(c, s) && s.queue != [] && !HeadIsLocal(s) && Proper(c) && s.reader != Failed
    requires s.reader == Idle || (s.reader.Waiting? && |s.commands| == 1)
    ensures Forwards(c, Answered(s)) < |s.received|
  {
    hide Described, Answers, Commands, Forwards, Replies, InFlight, Handshake;
    assert s.queue[0] == PendingOf(c, Answered(s));
    ForwardsMonotone(c, Answered(s) + 1, Seen(s));
    ForwardsMonotone(c, Seen(s), s.next - Busy(s));
    CommandSent(c, Answered(s));
  }

  lemma NothingTravels(c: Config, s: State)
    requires Inv(c, s) && s.phase == Piped && Quiet(c, s)
    ensures !HeadIsLocal(s) && Travelling(s) == []
    ensures s.reader == Idle ==> s.next == |c.requests|
    ensures s.reader == Idle || (s.reader.Waiting? && |s.commands| == 1 && |s.queue| == MAX_PENDING)
  {
    hide Replies, Described, Answers, Forwards, Commands;
  }

  lemma AnswerAtIndex(c: Config, run: seq<Step>, s: State, i: nat)
    requires Proper(c) && Execute(c, run) == Some(s) && i < |Replies(s.output)|
    ensures && i < |c.requests|
            && (if c.requests[i].forward == "" then Replies(s.output)[i] == c.requests[i].local
                else
                  && Forwards(c, i) < |s.replies| <= |s.received|
                  && s.received[Forwards(c, i)] == c.requests[i].forward
                  && Replies(s.output)[i] == s.replies[Forwards(c, i)])
  {
    hide Execute, Replies, Described, Answers;
    RunKeeps(c, run);
    ForwardsMonotone(c, i + 1, Answered(s));
    AnswersAt(c, s.replies, Answered(s), i);
    if c.requests[i].forward != "" {
      ForwardsMonotone(c, i + 1, s.next);
      assert Commands(c, i + 1)[Forwards(c, i)] == c.requests[i].forward;
    }
  }

  lemma {:induction false} AnswersAt(c: Config, replies: seq<string>, n: nat, i: nat)
    requires i < n <= |c.requests| && Forwards(c, n) <= |replies|
    ensures Forwards(c, i + 1) <= |replies| && Answers(c, replies, n)[i] == Answer(c, replies, i)
  {
    ForwardsMonotone(c, i + 1, n);
    if i < n - 1 {
      AnswersAt(c, replies, n - 1, i);
    }
  }

  // ----- the requests of a client --------------------------------------------------------------

  /** The requests of a client of a listener. */
  ghost function ConfigOf(requests: seq<Frame>, options: Options): (c: Config)
    ensures |c.requests| == |requests|
  {
    Config(seq(|requests|, i requires 0 <= i < |requests| =>
                 Inspected(DecisionAt(requests, options, i).forward, DecisionAt(requests, options, i).local,
                           AuthAfter(requests[..i + 1], options))),
           options.listenerPassword == "")
  }

  /** Inspecting any client's requests gives a proper configuration. */
  lemma InspectionIsProper(requests: seq<Frame>, options: Options)
    requires forall i :: 0 <= i < |requests| ==> requests[i].raw != ""
    ensures Proper(ConfigOf(requests, options))
  {
    hide Inspect;
    var c := ConfigOf(requests, options);
    forall i | 0 <= i < |c.requests| ensures c.requests[i].forward == "" <==> c.requests[i].local != "" {
      DecisionFacts(requests[i], options, AuthAfter(requests[..i], options));
    }
  }

  lemma RequestOf(requests: seq<Frame>, options: Options)
    ensures forall i :: 0 <= i < |requests| ==>
              && ConfigOf(requests, options).requests[i].forward == DecisionAt(requests, options, i).forward
              && ConfigOf(requests, options).requests[i].local == DecisionAt(requests, options, i).local
  {
    hide DecisionAt, AuthAfter;
  }

  /** The order of answers, for the requests of any client of any listener. */
  lemma ClientSeesAnswersInOrder(requests: seq<Frame>, options: Options, run: seq<Step>, s: State, i: nat)
    requires forall k :: 0 <= k < |requests| ==> requests[k].raw != ""
    requires i < |Replies(s.output)|
    ensures Execute(ConfigOf(requests, options), run) == Some(s) ==>
            var c := ConfigOf(requests, options);
            && i < |requests|
            && (var decision := DecisionAt(requests, options, i);
                if decision.forward == "" then Replies(s.output)[i] == decision.local
                else
                  && Forwards(c, i) < |s.replies| <= |s.received|
                  && s.received[Forwards(c, i)] == decision.forward
                  && Replies(s.output)[i] == s.replies[Forwards(c, i)])
  {
    hide ConfigOf, DecisionAt, Execute, Replies;
    var c := ConfigOf(requests, options);
    if Execute(c, run) == Some(s) {
      InspectionIsProper(requests, options);
      RequestOf(requests, options);
      AnswerAtIndex(c, run, s, i);
    }
  }

  // ----- when the upstream is dialled ----------------------------------------------------------

  /** No password is needed, or one of the first `n` requests has shown the credentials. */
  predicate Authenticated(c: Config, n: nat)
    requires n <= |c.requests|
  {
    c.authenticated || exists i :: 0 <= i < n && c.requests[i].authenticated
  }

  /** What is forwarded is forwarded for an authenticated client. */
  predicate Trusted(c: Config) {
    forall i :: 0 <= i < |c.requests| && c.requests[i].forward != "" ==> c.requests[i].authenticated
  }

  /** The pipeline runs, or has run, for authenticated clients only, and starts as soon as one is. */
  predicate Dialled(c: Config, s: State) {
    && s.next <= |c.requests|
    && (s.phase == Authenticating ==> !Authenticated(c, s.next) && s.reader == Idle && s.received == [])
    && (s.phase == Piped || s.reader != Idle || s.received != [] ==> Authenticated(c, s.next))
  }

  lemma StepDials(c: Config, s: State, step: Step)
    requires Trusted(c) && Dialled(c, s) && Enabled(c, s, step)
    ensures Dialled(c, Apply(c, s, step))
  {
    var t := Apply(c, s, step);
    assert s.next <= t.next <= |c.requests|;
    assert Authenticated(c, s.next) ==> Authenticated(c, t.next);
    if step == Authenticate {
      assert t.next == s.next + 1;
      assert c.requests[s.next].authenticated ==> Authenticated(c, t.next);
    }
  }

  lemma {:induction false} RunDials(c: Config, run: seq<Step>, s: State)
    requires Trusted(c) && Execute(c, run) == Some(s)
    ensures Dialled(c, s)
  {
    hide Dialled, Apply, Enabled;
    if run == [] {
      StartDials(c);
    } else {
      var before := Execute(c, run[..|run| - 1]).value;
      RunDials(c, run[..|run| - 1], before);
      StepDials(c, before, run[|run| - 1]);
    }
  }

  lemma StartDials(c: Config)
    ensures Dialled(c, Start(c))
  {
  }

  /**
   For any client of any listener: the upstream is dialled, and commands are written to it, only after a request that showed the
   credentials, if there is a password; and the client stays unserved no longer than that.
   */
  lemma DialledWhenAuthenticated(requests: seq<Frame>, options: Options, run: seq<Step>, s: State)
    requires forall k :: 0 <= k < |requests| ==> requests[k].raw != ""
    ensures Execute(ConfigOf(requests, options), run) == Some(s) ==>
            && s.next <= |requests|
            && (s.phase == Piped || s.received != [] ==> Shown(requests, options, s.next))
            && (s.phase == Authenticating ==> !Shown(requests, options, s.next))
  {
    hide Execute, Shown, ConfigOf, Authenticated;
    var c := ConfigOf(requests, options);
    if Execute(c, run) == Some(s) {
      ForwardedIsTrusted(requests, options);
      RunDials(c, run, s);
      ShownIff(requests, options, s.next);
    }
  }

  /** The listener has no password, or one of the first `n` requests has shown the credentials. */
  predicate Shown(requests: seq<Frame>, options: Options, n: nat) {
    options.listenerPassword == "" || exists i :: 0 <= i < n && i < |requests| && RedisAnswers.Welcome(requests[i], options)
  }

  lemma ShownIff(requests: seq<Frame>, options: Options, n: nat)
    requires n <= |requests|
    ensures Authenticated(ConfigOf(requests, options), n) <==> Shown(requests, options, n)
  {
    hide AuthAfter, RedisAnswers.Welcome, Inspect;
    var c := ConfigOf(requests, options);
    forall i | 0 <= i < n
      ensures c.requests[i].authenticated <==>
              options.listenerPassword == "" || exists k :: 0 <= k <= i && RedisAnswers.Welcome(requests[k], options)
    {
      var seen := requests[..i + 1];
      RedisAnswers.AuthAfterIff(seen, options);
      assert forall k :: 0 <= k <= i ==> seen[k] == requests[k];
    }
    if options.listenerPassword != "" {
      assert !c.authenticated;
      forall i | 0 <= i < n && RedisAnswers.Welcome(requests[i], options) ensures c.requests[i].authenticated {
      }
    }
  }

  lemma ForwardedIsTrusted(requests: seq<Frame>, options: Options)
    requires forall k :: 0 <= k < |requests| ==> requests[k].raw != ""
    ensures Trusted(ConfigOf(requests, options))
  {
    hide Inspect;
    forall i | 0 <= i < |requests| && DecisionAt(requests, options, i).forward != ""
      ensures AuthAfter(requests[..i + 1], options)
    {
      assert requests[..i + 1][..i] == requests[..i];
      DecisionFacts(requests[i], options, AuthAfter(requests[..i], options));
    }
  }
}

/**
 Which request each reply is counted for, errors and simple queries included. The server is a machine of
 its own, driven by the same messages: after an error it discards what was sent before the next Sync.
 Tracker and server agree at every ReadyForQuery exactly when each ReadyForQuery fits.
 */
module PostgresErrors {
  import opened Wrappers
  import opened PostgresTracker

  // ----- the server ----------------------------------------------------------------------------

  /** What the server did with a request. */
  datatype Outcome =
    | Answered(rows: nat, tags: seq<string>)
    | Refused(rows: nat, tags: seq<string>, code: string, text: string)
    | Discarded

  /**
   Each Sync and each simple query ends a batch. `batches` and `simple` hold, for each request sent, its
   batch and whether it is a simple query; `sent` counts the batches ended by the client, `unsynced` says
   that the next has begun; `ready` counts the batches closed by the server, `outcomes` are those of the
   requests dealt with, `rows` and `tags` what was sent for the one at hand. `early` says that no request
   was left to answer when the error came.
   */
  datatype Server = Server(
    batches: seq<nat>,
    simple: seq<bool>,
    sent: nat,
    unsynced: bool,
    ready: nat,
    outcomes: seq<Outcome>,
    rows: nat,
    tags: seq<string>,
    failing: Option<(string, string)>,
    early: bool)

  const IDLE: Server := Server([], [], 0, false, 0, [], 0, [], None, false)

  /** The requests of the batches up to `ready` that stand at or behind `from`. */
  function Left(batches: seq<nat>, from: nat, ready: nat): (count: nat)
    requires from <= |batches|
    ensures from + count <= |batches|
    decreases |batches| - from
  {
    if from < |batches| && batches[from] <= ready then 1 + Left(batches, from + 1, ready) else 0
  }

  /** The requests of the batch at hand that have no outcome yet. */
  function Unanswered(v: Server): (count: nat)
    ensures |v.outcomes| <= |v.batches| ==> |v.outcomes| + count <= |v.batches|
  {
    if |v.outcomes| <= |v.batches| then Left(v.batches, |v.outcomes|, v.ready) else 0
  }

  /** The request at this place has been sent and is a simple query. */
  predicate SimpleAt(v: Server, i: nat) {
    i < |v.simple| && v.simple[i]
  }

  predicate SimpleAtHand(v: Server) {
    Unanswered(v) > 0 && SimpleAt(v, |v.outcomes|)
  }

  /** An error is the outcome of the first request it leaves unanswered; the others are discarded. */
  function Dropped(count: nat, refused: Outcome): (outcomes: seq<Outcome>)
    ensures |outcomes| == count
  {
    if count == 0 then [] else [refused] + seq(count - 1, _ => Discarded)
  }

  /** What the end of a batch settles. */
  function Closing(v: Server): seq<Outcome> {
    match v.failing
    case Some((code, text)) => Dropped(Unanswered(v), Refused(v.rows, v.tags, code, text))
    case None => if SimpleAtHand(v) then [Answered(v.rows, v.tags)] else []
  }

  function Serve(v: Server, e: Event): Server {
    match e
    case Front(Query(_)) => v.(batches := v.batches + [v.sent], simple := v.simple + [true], sent := v.sent + 1)
    case Front(Execute(_)) => v.(batches := v.batches + [v.sent], simple := v.simple + [false], unsynced := true)
    case Front(Sync) => v.(sent := v.sent + 1, unsynced := false)
    case Front(Otherwise) => v
    case Front(_) => v.(unsynced := true)
    case Back(DataRow) => v.(rows := v.rows + 1)
    case Back(Failure(code, text)) => v.(failing := Some((code, text)), early := |v.outcomes| == |v.batches|)
    case Back(Ready) => v.(outcomes := v.outcomes + Closing(v), ready := v.ready + 1, rows := 0, tags := [], failing := None)
    case Back(m) =>
      if !Ends(m) then v
      else if SimpleAtHand(v) then v.(tags := v.tags + TagsOf(m))
      else v.(outcomes := v.outcomes + [Answered(v.rows, v.tags + TagsOf(m))], rows := 0, tags := [])
  }

  function ServerAfter(events: seq<Event>): Server {
    if events == [] then IDLE else Serve(ServerAfter(events[..|events| - 1]), events[|events| - 1])
  }

  /**
   What may come next: a simple query only where no extended message waits for its Sync; rows and completions
   for the request at hand; one error a batch; a ReadyForQuery for each batch, when nothing else is left to answer.
   */
  predicate Allowed(v: Server, e: Event) {
    match e
    case Front(m) => m.Query? ==> !v.unsynced
    case Back(Failure(_, text)) => v.failing == None && text != ""
    case Back(Ready) => v.ready < v.sent && (v.failing.Some? || Unanswered(v) == 0 || SimpleAtHand(v))
    case Back(m) => m.DataRow? || Ends(m) ==> v.failing == None && Unanswered(v) > 0
  }

  /** A run of the protocol, simple and extended, with errors, in any interleaving of requests and replies. */
  predicate Served(events: seq<Event>) {
    events == [] ||
    var before, last := events[..|events| - 1], events[|events| - 1];
    Served(before) && Allowed(ServerAfter(before), last)
  }

  // ----- the claim -----------------------------------------------------------------------------

  /** The record a request should have, given its outcome; a discarded one has none. */
  function RecordOf(request: Request, outcome: Outcome): seq<Record> {
    match outcome
    case Answered(rows, tags) => [Reply(request, rows, tags, true, "", "")]
    case Refused(rows, tags, code, text) => [Reply(request, rows, tags, false, code, text)]
    case Discarded => []
  }

  function Due(sent: seq<Request>, outcomes: seq<Outcome>): seq<Record>
    requires |outcomes| <= |sent|
  {
    if outcomes == [] then []
    else Due(sent, outcomes[..|outcomes| - 1]) + RecordOf(sent[|outcomes| - 1], outcomes[|outcomes| - 1])
  }

  /** Requests in the queue; `rows` and `tags` are counted for the first. */
  function Queued(requests: seq<Request>, rows: nat, tags: seq<string>): (pending: seq<Pending>)
    ensures |pending| == |requests|
    ensures forall i :: 0 <= i < |pending| ==>
      pending[i] == if i == 0 then Pending(requests[i], rows, tags, "", "") else Pending(requests[i], 0, [], "", "")
  {
    seq(|requests|, i requires 0 <= i < |requests| =>
      if i == 0 then Pending(requests[i], rows, tags, "", "") else Pending(requests[i], 0, [], "", ""))
  }

  /** The records are those of the requests dealt with, and exactly the others are waiting. */
  predicate Agrees(s: State, v: Server, sent: seq<Request>) {
    && |v.outcomes| <= |sent| && s.deferred == None
    && Replies(s.records) == Due(sent, v.outcomes)
    && s.pending == Queued(sent[|v.outcomes|..], v.rows, v.tags)
  }

  predicate AgreesAtEveryReady(events: seq<Event>) {
    events == [] ||
    (AgreesAtEveryReady(events[..|events| - 1])
     && (events[|events| - 1] == Back(Ready) ==> Agrees(Run(events), ServerAfter(events), Sent(events))))
  }

  /**
   A failing batch has one request without an answer, the one that failed; and no simple query is waiting at a
   ReadyForQuery that is not its own.
   */
  predicate Fits(v: Server) {
    var next := |v.outcomes|;
    if v.failing.Some? then Unanswered(v) == 1 && !SimpleAt(v, if v.early then next else next + 1)
    else SimpleAtHand(v) || !SimpleAt(v, next)
  }

  predicate FitsAtEveryReady(events: seq<Event>) {
    events == [] ||
    var before := events[..|events| - 1];
    FitsAtEveryReady(before) && (events[|events| - 1] == Back(Ready) ==> Fits(ServerAfter(before)))
  }

  // ----- small facts ---------------------------------------------------------------------------

  lemma DueSnoc(sent: seq<Request>, outcomes: seq<Outcome>, outcome: Outcome)
    requires |outcomes| < |sent|
    ensures Due(sent, outcomes + [outcome]) == Due(sent, outcomes) + RecordOf(sent[|outcomes|], outcome)
  {
    assert (outcomes + [outcome])[..|outcomes|] == outcomes;
  }

  lemma {:induction false} DueOfMore(sent: seq<Request>, more: seq<Request>, outcomes: seq<Outcome>)
    requires |outcomes| <= |sent|
    ensures Due(sent + more, outcomes) == Due(sent, outcomes)
  {
    if outcomes != [] {
      DueOfMore(sent, more, outcomes[..|outcomes| - 1]);
    }
  }

  lemma {:induction false} DueSkips(sent: seq<Request>, outcomes: seq<Outcome>, count: nat)
    requires |outcomes| + count <= |sent|
    ensures Due(sent, outcomes + seq(count, _ => Discarded)) == Due(sent, outcomes)
    decreases count
  {
    var skipped: seq<Outcome> := seq(count, _ => Discarded);
    if count == 0 {
      assert outcomes + skipped == outcomes;
    } else {
      var fewer: seq<Outcome> := seq(count - 1, _ => Discarded);
      assert outcomes + skipped == (outcomes + fewer) + [Discarded];
      DueSnoc(sent, outcomes + fewer, Discarded);
      DueSkips(sent, outcomes, count - 1);
    }
  }

  lemma DueDropped(sent: seq<Request>, outcomes: seq<Outcome>, count: nat, refused: Outcome)
    requires |outcomes| + count <= |sent|
    ensures Due(sent, outcomes + Dropped(count, refused))
         == Due(sent, outcomes) + if count == 0 then [] else RecordOf(sent[|outcomes|], refused)
  {
    if count == 0 {
      assert outcomes + [] == outcomes;
    } else {
      var skipped: seq<Outcome> := seq(count - 1, _ => Discarded);
      assert outcomes + ([refused] + skipped) == outcomes + [refused] + skipped;
      DueSkips(sent, outcomes + [refused], count - 1);
      DueSnoc(sent, outcomes, refused);
    }
  }

  lemma {:induction false} LeftOfMore(batches: seq<nat>, from: nat, ready: nat, batch: nat)
    requires from <= |batches|
    ensures Left(batches + [batch], from, ready) >= Left(batches, from, ready)
    decreases |batches| - from
  {
    if from < |batches| {
      LeftOfMore(batches, from + 1, ready, batch);
    }
  }

  lemma QueuedMore(requests: seq<Request>, request: Request, rows: nat, tags: seq<string>)
    requires requests == [] ==> rows == 0 && tags == []
    ensures Queued(requests + [request], rows, tags) == Queued(requests, rows, tags) + [Pending(request, 0, [], "", "")]
  {
  }

  lemma QueuedRest(requests: seq<Request>, rows: nat, tags: seq<string>)
    requires requests != []
    ensures Queued(requests, rows, tags) == [Pending(requests[0], rows, tags, "", "")] + Queued(requests[1..], 0, [])
  {
  }

  lemma QueuedLength(a: seq<Request>, b: seq<Request>)
    requires |a| != |b|
    ensures Queued(a, 0, []) != Queued(b, 0, [])
  {
  }

  /** The queue from a place on: its head and what stands behind. */
  lemma QueuedFrom(sent: seq<Request>, next: nat, rows: nat, tags: seq<string>)
    requires next < |sent|
    ensures Queued(sent[next..], rows, tags) == [Pending(sent[next], rows, tags, "", "")] + Queued(sent[next + 1..], 0, [])
  {
    QueuedRest(sent[next..], rows, tags);
    assert sent[next..][1..] == sent[next + 1..];
  }

  // ----- the invariant -------------------------------------------------------------------------

  /** An error took the head off the queue. */
  predicate TookHead(s: State, v: Server, sent: seq<Request>, refused: Outcome)
    requires |v.outcomes| <= |sent|
  {
    var next := |v.outcomes|;
    && next < |sent| && !v.early && s.deferred == None
    && Replies(s.records) == Due(sent, v.outcomes) + RecordOf(sent[next], refused)
    && s.pending == Queued(sent[next + 1..], 0, [])
  }

  /** An error found the queue empty, and it still is. */
  predicate Deferred(s: State, v: Server, sent: seq<Request>, refused: Outcome)
    requires |v.outcomes| <= |sent| && refused.Refused?
  {
    && |v.outcomes| == |sent| && v.early && v.rows == 0 && v.tags == [] && s.deferred == Some((refused.code, refused.text))
    && Replies(s.records) == Due(sent, v.outcomes) && s.pending == []
  }

  /** An Execute was queued with the error that had waited for it. */
  predicate Marked(s: State, v: Server, sent: seq<Request>, refused: Outcome)
    requires |v.outcomes| <= |sent| && refused.Refused?
  {
    var next := |v.outcomes|;
    && next < |sent| && !sent[next].simple && v.early && v.rows == 0 && v.tags == [] && s.deferred == None
    && Replies(s.records) == Due(sent, v.outcomes)
    && s.pending == [Pending(sent[next], 0, [], refused.code, refused.text)] + Queued(sent[next + 1..], 0, [])
  }

  /** A simple query, which takes no error, was queued first. */
  predicate Passed(s: State, v: Server, sent: seq<Request>)
    requires |v.outcomes| <= |sent|
  {
    var next := |v.outcomes|;
    && next < |sent| && sent[next].simple && v.early
    && Replies(s.records) == Due(sent, v.outcomes)
    && s.pending != [] && s.pending[0] == Pending(sent[next], 0, [], "", "")
  }

  predicate Sane(v: Server, sent: seq<Request>) {
    && |v.outcomes| <= |v.batches| == |sent| == |v.simple|
    && (v.rows > 0 || v.tags != [] ==> Unanswered(v) > 0)
    && (forall i :: 0 <= i < |sent| ==> sent[i].simple == v.simple[i])
  }

  predicate Failing(s: State, v: Server, sent: seq<Request>, code: string, text: string)
    requires |v.outcomes| <= |sent|
  {
    var refused := Refused(v.rows, v.tags, code, text);
    && text != ""
    && (TookHead(s, v, sent, refused) || Deferred(s, v, sent, refused) || Marked(s, v, sent, refused) || Passed(s, v, sent))
  }

  predicate Follows(s: State, v: Server, sent: seq<Request>) {
    && Sane(v, sent)
    && match v.failing
       case None => Agrees(s, v, sent)
       case Some((code, text)) => Failing(s, v, sent, code, text)
  }

  // ----- what the client sends -----------------------------------------------------------------

  predicate Sends(m: Frontend) {
    m.Query? || m.Execute?
  }

  function RequestOf(s: State, m: Frontend): Request
    requires Sends(m)
  {
    if m.Query? then Request(true, m.text) else Request(false, Get(s.portals, m.portal))
  }

  lemma Queue(s: State, v: Server, sent: seq<Request>, m: Frontend)
    requires Follows(s, v, sent) && Sends(m)
    ensures Follows(OnFrontend(s, m), Serve(v, Front(m)), sent + [RequestOf(s, m)])
  {
    hide Replies, Due, Left, Agrees, Failing;
    LeftOfMore(v.batches, |v.outcomes|, v.ready, v.sent);
    if v.failing == None {
      QueueWhileAgreeing(s, v, sent, m);
    } else {
      QueueWhileFailing(s, v, sent, m, v.failing.value.0, v.failing.value.1);
    }
  }

  lemma QueueWhileAgreeing(s: State, v: Server, sent: seq<Request>, m: Frontend)
    requires Sane(v, sent) && Agrees(s, v, sent) && Sends(m)
    ensures Agrees(OnFrontend(s, m), Serve(v, Front(m)), sent + [RequestOf(s, m)])
  {
    hide Replies, Due, Left, Queued;
    var request, next := RequestOf(s, m), |v.outcomes|;
    DueOfMore(sent, [request], v.outcomes);
    assert (sent + [request])[next..] == sent[next..] + [request];
    QueuedMore(sent[next..], request, v.rows, v.tags);
  }

  lemma QueueWhileFailing(s: State, v: Server, sent: seq<Request>, m: Frontend, code: string, text: string)
    requires |v.outcomes| <= |sent| && Sends(m) && Failing(s, v, sent, code, text)
    ensures Failing(OnFrontend(s, m), Serve(v, Front(m)), sent + [RequestOf(s, m)], code, text)
  {
    hide Replies, Due, Left, Queued;
    var request, next := RequestOf(s, m), |v.outcomes|;
    DueOfMore(sent, [request], v.outcomes);
    if next < |sent| {
      assert (sent + [request])[next + 1..] == sent[next + 1..] + [request];
      QueuedMore(sent[next + 1..], request, 0, []);
    }
  }

  lemma OtherFrontend(s: State, v: Server, sent: seq<Request>, m: Frontend)
    requires Follows(s, v, sent) && !Sends(m)
    ensures Follows(OnFrontend(s, m), Serve(v, Front(m)), sent)
  {
    hide Replies, Due, Left, Queued;
  }

  // ----- what the server sends -----------------------------------------------------------------

  lemma OnRow(s: State, v: Server, sent: seq<Request>)
    requires Follows(s, v, sent) && Allowed(v, Back(DataRow))
    ensures Follows(OnBackend(s, DataRow), Serve(v, Back(DataRow)), sent)
  {
    hide Replies, Due, Left, Queued;
    QueuedFrom(sent, |v.outcomes|, v.rows, v.tags);
    QueuedFrom(sent, |v.outcomes|, v.rows + 1, v.tags);
  }

  /** A completion inside a simple query. */
  lemma OnSimpleEnd(s: State, v: Server, sent: seq<Request>, m: Backend)
    requires Follows(s, v, sent) && Ends(m) && Allowed(v, Back(m)) && SimpleAtHand(v)
    ensures Follows(OnBackend(s, m), Serve(v, Back(m)), sent)
  {
    hide Replies, Due, Left, Queued;
    QueuedFrom(sent, |v.outcomes|, v.rows, v.tags);
    QueuedFrom(sent, |v.outcomes|, v.rows, v.tags + TagsOf(m));
    assert v.tags + [] == v.tags;
  }

  lemma OnEnd(s: State, v: Server, sent: seq<Request>, m: Backend)
    requires Follows(s, v, sent) && Ends(m) && Allowed(v, Back(m)) && !SimpleAtHand(v)
    ensures Follows(OnBackend(s, m), Serve(v, Back(m)), sent)
  {
    hide Replies, Due, Left, Queued;
    var next, tags := |v.outcomes|, v.tags + TagsOf(m);
    QueuedFrom(sent, next, v.rows, v.tags);
    DueSnoc(sent, v.outcomes, Answered(v.rows, tags));
    assert s.pending[0] == Pending(sent[next], v.rows, v.tags, "", "") && s.pending[1..] == Queued(sent[next + 1..], 0, []);
    assert v.tags + [] == v.tags;
    RepliesSnoc(s.records, Reply(sent[next], v.rows, tags, true, "", ""));
  }

  lemma OnFailure(s: State, v: Server, sent: seq<Request>, code: string, text: string)
    requires Follows(s, v, sent) && Allowed(v, Back(Failure(code, text)))
    ensures Follows(OnBackend(s, Failure(code, text)), Serve(v, Back(Failure(code, text))), sent)
  {
    hide Replies, Due, Left, Queued;
    var next := |v.outcomes|;
    if next < |sent| {
      QueuedFrom(sent, next, v.rows, v.tags);
      assert s.pending[0] == Pending(sent[next], v.rows, v.tags, "", "") && s.pending[1..] == Queued(sent[next + 1..], 0, []);
      RepliesSnoc(s.records, Reply(sent[next], v.rows, v.tags, false, code, text));
    }
  }

  lemma OtherBackend(s: State, v: Server, sent: seq<Request>, m: Backend)
    requires Follows(s, v, sent) && (m.Notification? || m.Unrelated?)
    ensures Follows(OnBackend(s, m), Serve(v, Back(m)), sent)
  {
    hide Due, Left, Queued, Replies;
    if m.Notification? {
      RepliesSnoc(s.records, Notice(m.channel, m.payload));
      assert Replies(s.records) + [] == Replies(s.records);
    }
  }

  // ----- closing a batch -----------------------------------------------------------------------

  function Closed(v: Server): Server {
    Serve(v, Back(Ready))
  }

  /** A ReadyForQuery takes nothing off the queue unless its head is a simple query or marked. */
  lemma ReadyKeeps(s: State)
    requires s.pending != [] ==> !s.pending[0].request.simple && s.pending[0].text == ""
    requires s.pending == [] ==> s.deferred == None
    ensures OnBackend(s, Ready) == s.(deferred := None)
  {
  }

  lemma ReadyTakes(s: State)
    requires s.pending != [] && (s.pending[0].request.simple || s.pending[0].text != "")
    ensures var head, after := s.pending[0], OnBackend(s, Ready);
            && after.pending == s.pending[1..] && after.deferred == None
            && Replies(after.records) == Replies(s.records) + [Reply(head.request, head.rows, head.tags, head.text == "", head.code, head.text)]
  {
    hide Replies;
    var head := s.pending[0];
    RepliesSnoc(s.records, Reply(head.request, head.rows, head.tags, head.text == "", head.code, head.text));
  }

  /** The end of a simple query. */
  lemma CloseSimple(s: State, v: Server, sent: seq<Request>)
    requires Follows(s, v, sent) && v.failing == None && SimpleAtHand(v)
    ensures Follows(OnBackend(s, Ready), Closed(v), sent) && Agrees(OnBackend(s, Ready), Closed(v), sent)
  {
    hide Replies, Due, Left, Queued, OnBackend;
    var next := |v.outcomes|;
    QueuedFrom(sent, next, v.rows, v.tags);
    assert s.pending[0] == Pending(sent[next], v.rows, v.tags, "", "") && s.pending[1..] == Queued(sent[next + 1..], 0, []);
    ReadyTakes(s);
    DueSnoc(sent, v.outcomes, Answered(v.rows, v.tags));
  }

  /** The end of a batch of Executes that did not fail. */
  lemma CloseAnswered(s: State, v: Server, sent: seq<Request>)
    requires Follows(s, v, sent) && v.failing == None && Unanswered(v) == 0
    ensures Agrees(OnBackend(s, Ready), Closed(v), sent) <==> Fits(v)
    ensures Fits(v) ==> Follows(OnBackend(s, Ready), Closed(v), sent)
  {
    hide Replies, Due, Left, Queued, OnBackend;
    var next := |v.outcomes|;
    assert v.outcomes + [] == v.outcomes;
    if next < |sent| {
      QueuedFrom(sent, next, 0, []);
      assert s.pending[0] == Pending(sent[next], 0, [], "", "");
    }
    if SimpleAt(v, next) {
      ReadyTakes(s);
    } else {
      ReadyKeeps(s);
    }
  }

  lemma CloseTookHead(s: State, v: Server, sent: seq<Request>, refused: Outcome)
    requires Sane(v, sent) && refused.Refused? && v.failing == Some((refused.code, refused.text))
    requires refused == Refused(v.rows, v.tags, refused.code, refused.text) && TookHead(s, v, sent, refused)
    ensures Agrees(OnBackend(s, Ready), Closed(v), sent) <==> Fits(v)
  {
    hide Replies, Due, Left, Queued, OnBackend, Unanswered, Dropped;
    var next, count := |v.outcomes|, Unanswered(v);
    DueDropped(sent, v.outcomes, count, refused);
    if next + 1 < |sent| {
      QueuedFrom(sent, next + 1, 0, []);
      assert s.pending[0] == Pending(sent[next + 1], 0, [], "", "");
    }
    if SimpleAt(v, next + 1) {
      ReadyTakes(s);
    } else {
      ReadyKeeps(s);
      if count > 1 {
        QueuedLength(sent[next + 1..], sent[next + count..]);
      }
    }
  }

  lemma CloseDeferred(s: State, v: Server, sent: seq<Request>, refused: Outcome)
    requires Sane(v, sent) && refused.Refused? && v.failing.Some? && Deferred(s, v, sent, refused)
    ensures !Agrees(OnBackend(s, Ready), Closed(v), sent) && !Fits(v)
  {
    hide Replies, Due, Queued;
  }

  lemma CloseMarked(s: State, v: Server, sent: seq<Request>, refused: Outcome)
    requires Sane(v, sent) && refused.Refused? && v.failing == Some((refused.code, refused.text)) && refused.text != ""
    requires refused == Refused(v.rows, v.tags, refused.code, refused.text) && Marked(s, v, sent, refused)
    ensures Agrees(OnBackend(s, Ready), Closed(v), sent) <==> Fits(v)
  {
    hide Replies, Due, Left, Queued, OnBackend, Unanswered, Dropped;
    var next, count := |v.outcomes|, Unanswered(v);
    DueDropped(sent, v.outcomes, count, refused);
    assert s.pending[1..] == Queued(sent[next + 1..], 0, []);
    ReadyTakes(s);
    if count > 1 {
      QueuedLength(sent[next + 1..], sent[next + count..]);
    }
  }

  lemma ClosePassed(s: State, v: Server, sent: seq<Request>, refused: Outcome)
    requires Sane(v, sent) && refused.Refused? && v.failing == Some((refused.code, refused.text)) && Passed(s, v, sent)
    requires refused == Refused(v.rows, v.tags, refused.code, refused.text)
    ensures !Agrees(OnBackend(s, Ready), Closed(v), sent) && !Fits(v)
  {
    hide Replies, Due, Left, Queued, OnBackend, Unanswered, Dropped;
    DueDropped(sent, v.outcomes, Unanswered(v), refused);
    ReadyTakes(s);
    var due, record := Due(sent, v.outcomes), Reply(sent[|v.outcomes|], 0, [], true, "", "");
    assert (due + [record])[|due|] == record;
  }

  lemma CloseFailing(s: State, v: Server, sent: seq<Request>)
    requires Follows(s, v, sent) && v.failing.Some?
    ensures Agrees(OnBackend(s, Ready), Closed(v), sent) <==> Fits(v)
    ensures Fits(v) ==> Follows(OnBackend(s, Ready), Closed(v), sent)
  {
    hide OnBackend, Agrees, TookHead, Deferred, Marked, Passed, Unanswered;
    var (code, text) := v.failing.value;
    var refused := Refused(v.rows, v.tags, code, text);
    if TookHead(s, v, sent, refused) {
      CloseTookHead(s, v, sent, refused);
    } else if Deferred(s, v, sent, refused) {
      CloseDeferred(s, v, sent, refused);
    } else if Marked(s, v, sent, refused) {
      CloseMarked(s, v, sent, refused);
    } else {
      ClosePassed(s, v, sent, refused);
    }
  }

  lemma Close(s: State, v: Server, sent: seq<Request>)
    requires Follows(s, v, sent) && Allowed(v, Back(Ready))
    ensures Agrees(OnBackend(s, Ready), Closed(v), sent) <==> Fits(v)
    ensures Fits(v) ==> Follows(OnBackend(s, Ready), Closed(v), sent)
  {
    hide OnBackend, Agrees, Unanswered, Closed, Failing;
    if v.failing.Some? {
      CloseFailing(s, v, sent);
    } else if SimpleAtHand(v) {
      CloseSimple(s, v, sent);
    } else {
      CloseAnswered(s, v, sent);
    }
  }

  // ----- whole runs ----------------------------------------------------------------------------

  lemma OneReply(s: State, v: Server, sent: seq<Request>, m: Backend)
    requires Follows(s, v, sent) && Allowed(v, Back(m)) && !m.Ready?
    ensures Follows(OnBackend(s, m), Serve(v, Back(m)), sent)
  {
    hide OnBackend, Serve, Follows, SimpleAtHand;
    match m
    case DataRow => OnRow(s, v, sent);
    case Failure(code, text) => OnFailure(s, v, sent, code, text);
    case Ready =>
    case _ =>
      if !Ends(m) {
        OtherBackend(s, v, sent, m);
      } else if SimpleAtHand(v) {
        OnSimpleEnd(s, v, sent, m);
      } else {
        OnEnd(s, v, sent, m);
      }
  }

  lemma NothingFollows()
    ensures Follows(START, IDLE, [])
  {
  }

  lemma LastEvent(before: seq<Event>, last: Event, events: seq<Event>)
    requires events == before + [last] && Allowed(ServerAfter(before), last)
    requires Follows(Run(before), ServerAfter(before), Sent(before))
    ensures last == Back(Ready) ==> (Agrees(Run(events), ServerAfter(events), Sent(events)) <==> Fits(ServerAfter(before)))
    ensures last != Back(Ready) || Fits(ServerAfter(before)) ==> Follows(Run(events), ServerAfter(events), Sent(events))
  {
    hide OnFrontend, OnBackend, Agrees, Follows, Fits, Allowed, Serve;
    var s, v, sent := Run(before), ServerAfter(before), Sent(before);
    assert events[..|events| - 1] == before;
    match last
    case Front(m) =>
      if Sends(m) {
        if m.Execute? {
          NamesFollowHistory(before, m.portal);
        }
        Queue(s, v, sent, m);
      } else {
        OtherFrontend(s, v, sent, m);
        assert sent + [] == sent;
      }
    case Back(m) =>
      assert sent + [] == sent;
      if m.Ready? {
        Close(s, v, sent);
      } else {
        OneReply(s, v, sent, m);
      }
  }

  /**
   In any run of the protocol, simple queries, errors and deferred errors included: at every ReadyForQuery the records are
   those of the requests the server dealt with, each with its own outcome, and exactly the unanswered requests are waiting,
   if and only if every ReadyForQuery fits.
   */
  lemma {:induction false} RightRequestIff(events: seq<Event>)
    requires Served(events)
    ensures AgreesAtEveryReady(events) <==> FitsAtEveryReady(events)
    ensures FitsAtEveryReady(events) ==> Follows(Run(events), ServerAfter(events), Sent(events))
  {
    hide OnFrontend, OnBackend, Serve, Follows, Agrees, Fits, Allowed;
    if events == [] {
      NothingFollows();
    } else {
      var before, last := events[..|events| - 1], events[|events| - 1];
      RightRequestIff(before);
      if FitsAtEveryReady(before) {
        LastEvent(before, last, events);
      }
    }
  }

  // ----- the failing runs ----------------------------------------------------------------------

  /** Two Executes before one Sync, and the first fails: the second, which the server discards, takes the reply to the third. */
  lemma SkippedExecuteTakesLaterReply(s: State, a: string, b: string, c: string, code: string, text: string, tag: string)
    requires s.pending == [] && s.deferred == None && text != ""
    ensures var pipelined := OnFrontend(OnFrontend(OnFrontend(s, Execute(a)), Execute(b)), Sync);
            var refused := OnBackend(OnBackend(pipelined, Failure(code, text)), Ready);
            var again := OnFrontend(OnFrontend(refused, Execute(c)), Sync);
            var after := OnBackend(OnBackend(again, CommandComplete(tag)), Ready);
            && after.records == s.records + [Reply(Request(false, Get(s.portals, a)), 0, [], false, code, text),
                                             Reply(Request(false, Get(s.portals, b)), 0, [tag], true, "", "")]
            && after.pending == [Pending(Request(false, Get(s.portals, c)), 0, [], "", "")]
  {
    var pipelined := OnFrontend(OnFrontend(OnFrontend(s, Execute(a)), Execute(b)), Sync);
    var first, second := Request(false, Get(s.portals, a)), Request(false, Get(s.portals, b));
    assert pipelined.pending == [Pending(first, 0, [], "", ""), Pending(second, 0, [], "", "")];
    var refused := OnBackend(OnBackend(pipelined, Failure(code, text)), Ready);
    assert refused.pending == [Pending(second, 0, [], "", "")];
    var again := OnFrontend(OnFrontend(refused, Execute(c)), Sync);
    assert again.pending[1..] == [Pending(Request(false, Get(s.portals, c)), 0, [], "", "")];
    assert [] + [tag] == [tag];
  }

  /** A statement is refused in a batch without Execute: the Execute of the next batch, which is answered, carries the error. */
  lemma StaleErrorMarksNextExecute(s: State, name: string, query: string, portal: string, code: string, text: string, tag: string)
    requires s.pending == [] && text != ""
    ensures var refused := OnBackend(OnBackend(OnFrontend(OnFrontend(s, Parse(name, query)), Sync), Failure(code, text)), Ready);
            var after := OnBackend(OnFrontend(OnFrontend(refused, Execute(portal)), Sync), CommandComplete(tag));
            after.records == s.records + [Reply(Request(false, Get(s.portals, portal)), 0, [tag], true, code, text)]
  {
    var refused := OnBackend(OnBackend(OnFrontend(OnFrontend(s, Parse(name, query)), Sync), Failure(code, text)), Ready);
    assert refused.deferred == Some((code, text));
    assert [] + [tag] == [tag];
  }

  /** A simple query is sent behind a Sync: the ReadyForQuery of that Sync records it, before its reply. */
  lemma SyncFinishesWaitingQuery(s: State, portal: string, query: string, tag: string)
    requires s.pending == []
    ensures var sent := OnFrontend(OnFrontend(OnFrontend(s, Execute(portal)), Sync), Query(query));
            var after := OnBackend(OnBackend(sent, CommandComplete(tag)), Ready);
            && after.pending == [] && |after.records| == |s.records| + 2
            && after.records[|s.records| + 1] == Reply(Request(true, query), 0, [], true, "", "")
  {
    var sent := OnFrontend(OnFrontend(OnFrontend(s, Execute(portal)), Sync), Query(query));
    assert sent.pending[1..] == [Pending(Request(true, query), 0, [], "", "")];
  }
}

/**
 Correlating PostgreSQL requests with replies. Messages come parsed; what is followed is which
 request each reply is counted for, its query, its rows, its command tag and its outcome.
 */
module PostgresTracker {
  import opened Wrappers

  datatype Frontend =
    | Query(text: string)
    | Parse(name: string, text: string)
    | Bind(portal: string, statement: string)
    | Execute(portal: string)
    | CloseStatement(name: string)
    | ClosePortal(name: string)
    | Sync
    | Otherwise

  datatype Backend =
    | Notification(channel: string, payload: string)
    | DataRow
    | CommandComplete(tag: string)
    | PortalSuspended
    | EmptyQuery
    | Failure(code: string, text: string)
    | Ready
    | Unrelated

  datatype Request = Request(simple: bool, query: string)

  datatype Pending = Pending(request: Request, rows: nat, tags: seq<string>, code: string, text: string)

  datatype Record =
    | Reply(request: Request, rows: nat, tags: seq<string>, ok: bool, code: string, text: string)
    | Notice(channel: string, payload: string)

  datatype State = State(
    statements: map<string, string>,
    portals: map<string, string>,
    pending: seq<Pending>,
    deferred: Option<(string, string)>,
    records: seq<Record>)

  const START: State := State(map[], map[], [], None, [])

  /** A name that is not there stands for the empty text, as a missing Go map entry does. */
  function Get(names: map<string, string>, name: string): string {
    if name in names then names[name] else ""
  }

  // ----- one message ---------------------------------------------------------------------------

  function OnFrontend(s: State, m: Frontend): State {
    match m
    case Query(text) => s.(pending := s.pending + [Pending(Request(true, text), 0, [], "", "")])
    case Parse(name, text) => s.(statements := s.statements[name := text])
    case Bind(portal, statement) => s.(portals := s.portals[portal := Get(s.statements, statement)])
    case Execute(portal) =>
      var (code, text) := if s.deferred.Some? then s.deferred.value else ("", "");
      s.(pending := s.pending + [Pending(Request(false, Get(s.portals, portal)), 0, [], code, text)], deferred := None)
    case CloseStatement(name) => s.(statements := s.statements - {name})
    case ClosePortal(name) => s.(portals := s.portals - {name})
    case Sync => s
    case Otherwise => s
  }

  /** The oldest request is over, having become `current`. */
  function Finish(s: State, current: Pending, ok: bool): State
    requires s.pending != []
  {
    s.(pending := s.pending[1..],
       records := s.records + [Reply(current.request, current.rows, current.tags, ok, current.code, current.text)])
  }

  function OnBackend(s: State, m: Backend): State {
    if m.Notification? then s.(records := s.records + [Notice(m.channel, m.payload)])
    else if m.Failure? && s.pending == [] then s.(deferred := Some((m.code, m.text)))
    else if s.pending == [] then s
    else
      var current := s.pending[0];
      match m
      case DataRow => s.(pending := s.pending[0 := current.(rows := current.rows + 1)])
      case CommandComplete(tag) =>
        var tagged := current.(tags := current.tags + [tag]);
        if current.request.simple then s.(pending := s.pending[0 := tagged]) else Finish(s, tagged, true)
      case PortalSuspended => if current.request.simple then s else Finish(s, current, true)
      case EmptyQuery => if current.request.simple then s else Finish(s, current, true)
      case Failure(code, text) => Finish(s, current.(code := code, text := text), false)
      case Ready =>
        (if current.request.simple || current.text != "" then Finish(s, current, current.text == "") else s).(deferred := None)
      case Unrelated => s
  }

  // ----- the tracker object --------------------------------------------------------------------

  class PendingRequest {
    const request: Request
    var rows: nat
    var tags: seq<string>
    var code: string
    var text: string

    constructor (request: Request, code: string, text: string)
      ensures View() == Pending(request, 0, [], code, text)
    {
      this.request, this.code, this.text := request, code, text;
      rows, tags := 0, [];
    }

    function View(): Pending
      reads this
    {
      Pending(request, rows, tags, code, text)
    }
  }

  class Tracker {
    var statements: map<string, string>
    var portals: map<string, string>
    var pending: seq<PendingRequest>
    var deferred: Option<(string, string)>
    var records: seq<Record>

    /** No request is queued twice. */
    ghost predicate Valid()
      reads this
    {
      forall i, j :: 0 <= i < j < |pending| ==> pending[i] != pending[j]
    }

    ghost function View(): State
      reads this, pending
    {
      State(statements, portals, seq(|pending|, i requires 0 <= i < |pending| reads this, pending => pending[i].View()), deferred, records)
    }

    constructor ()
      ensures Valid() && View() == START && pending == []
    {
      statements, portals, pending, deferred, records := map[], map[], [], None, [];
    }

    method HandleFrontend(m: Frontend)
      requires Valid()
      modifies this
      ensures Valid() && View() == OnFrontend(old(View()), m)
      ensures fresh(set p | p in pending && p !in old(pending))
    {
      match m {
        case Query(text) =>
          var queued := new PendingRequest(Request(true, text), "", "");
          pending := pending + [queued];
        case Parse(name, text) =>
          statements := statements[name := text];
        case Bind(portal, statement) =>
          portals := portals[portal := Get(statements, statement)];
        case Execute(portal) =>
          var code, text := "", "";
          if deferred.Some? {
            code, text := deferred.value.0, deferred.value.1;
            deferred := None;
          }
          var queued := new PendingRequest(Request(false, Get(portals, portal)), code, text);
          pending := pending + [queued];
        case CloseStatement(name) =>
          statements := statements - {name};
        case ClosePortal(name) =>
          portals := portals - {name};
        case Sync =>
        case Otherwise =>
      }
    }

    method FinishCurrent(ok: bool)
      requires Valid() && pending != []
      modifies this`pending, this`records
      ensures Valid() && pending == old(pending)[1..]
      ensures View() == Finish(old(View()), old(pending[0].View()), ok)
    {
      var current := pending[0];
      pending := pending[1..];
      records := records + [Reply(current.request, current.rows, current.tags, ok, current.code, current.text)];
    }

    method HandleBackend(m: Backend)
      requires Valid()
      modifies this, pending
      ensures Valid() && View() == OnBackend(old(View()), m)
      ensures pending == old(pending) || (old(pending) != [] && pending == old(pending)[1..])
    {
      if m.Notification? {
        records := records + [Notice(m.channel, m.payload)];
        return;
      }
      if m.Failure? && |pending| == 0 {
        deferred := Some((m.code, m.text));
        return;
      }
      if |pending| == 0 {
        return;
      }
      HandleReply(m);
    }

    /** A reply while a request is waiting. */
    method HandleReply(m: Backend)
      requires Valid() && pending != [] && !m.Notification?
      modifies this, pending
      ensures Valid() && View() == OnBackend(old(View()), m)
      ensures pending == old(pending) || pending == old(pending)[1..]
    {
      var current := pending[0];
      match m {
        case DataRow =>
          current.rows := current.rows + 1;
        case CommandComplete(tag) =>
          current.tags := current.tags + [tag];
          if !current.request.simple {
            FinishCurrent(true);
          }
        case PortalSuspended =>
          if !current.request.simple {
            FinishCurrent(true);
          }
        case EmptyQuery =>
          if !current.request.simple {
            FinishCurrent(true);
          }
        case Failure(code, text) =>
          current.code, current.text := code, text;
          FinishCurrent(false);
        case Ready =>
          if current.request.simple || current.text != "" {
            FinishCurrent(current.text == "");
          }
          deferred := None;
        case Unrelated =>
      }
    }
  }

  // ----- whole runs ----------------------------------------------------------------------------

  datatype Event = Front(message: Frontend) | Back(reply: Backend)

  function Step(s: State, e: Event): State {
    match e
    case Front(m) => OnFrontend(s, m)
    case Back(m) => OnBackend(s, m)
  }

  function Run(events: seq<Event>): State {
    if events == [] then START else Step(Run(events[..|events| - 1]), events[|events| - 1])
  }

  /** The requests recorded, notifications aside. */
  function Replies(records: seq<Record>): seq<Record> {
    if records == [] then []
    else
      var last := records[|records| - 1];
      Replies(records[..|records| - 1]) + if last.Reply? then [last] else []
  }

  lemma RepliesSnoc(records: seq<Record>, last: Record)
    ensures Replies(records + [last]) == Replies(records) + if last.Reply? then [last] else []
  {
    assert (records + [last])[..|records|] == records;
  }

  lemma {:induction false} RepliesAreReplies(records: seq<Record>)
    ensures forall i :: 0 <= i < |Replies(records)| ==> Replies(records)[i].Reply?
  {
    if records != [] {
      RepliesAreReplies(records[..|records| - 1]);
    }
  }

  function Recorded(records: seq<Record>): (requests: seq<Request>)
    ensures |requests| == |Replies(records)|
  {
    RepliesAreReplies(records);
    seq(|Replies(records)|, i requires 0 <= i < |Replies(records)| => Replies(records)[i].request)
  }

  function Waiting(pending: seq<Pending>): seq<Request> {
    seq(|pending|, i requires 0 <= i < |pending| => pending[i].request)
  }

  /** The text last parsed under a statement's name, unless it was closed since. */
  function StatementText(events: seq<Event>, name: string): string {
    if events == [] then ""
    else
      match events[|events| - 1]
      case Front(Parse(other, text)) => if other == name then text else StatementText(events[..|events| - 1], name)
      case Front(CloseStatement(other)) => if other == name then "" else StatementText(events[..|events| - 1], name)
      case _ => StatementText(events[..|events| - 1], name)
  }

  /** The text of the statement that a portal was last bound to, as that text was then. */
  function PortalText(events: seq<Event>, portal: string): string {
    if events == [] then ""
    else
      var before := events[..|events| - 1];
      match events[|events| - 1]
      case Front(Bind(other, statement)) => if other == portal then StatementText(before, statement) else PortalText(before, portal)
      case Front(ClosePortal(other)) => if other == portal then "" else PortalText(before, portal)
      case _ => PortalText(before, portal)
  }

  /** The requests the client sent, with the query each names when it is sent. */
  function Sent(events: seq<Event>): seq<Request> {
    if events == [] then []
    else
      var before, last := events[..|events| - 1], events[|events| - 1];
      Sent(before) +
      match last
      case Front(Query(text)) => [Request(true, text)]
      case Front(Execute(portal)) => [Request(false, PortalText(before, portal))]
      case _ => []
  }

  lemma BackendKeepsNames(s: State, m: Backend)
    ensures OnBackend(s, m).statements == s.statements && OnBackend(s, m).portals == s.portals
  {
  }

  /** The maps hold, under every name, what the history of parses, binds and closes says. */
  lemma {:induction false} NamesFollowHistory(events: seq<Event>, name: string)
    ensures Get(Run(events).statements, name) == StatementText(events, name)
    ensures Get(Run(events).portals, name) == PortalText(events, name)
  {
    hide OnBackend;
    if events != [] {
      var before, last := events[..|events| - 1], events[|events| - 1];
      NamesFollowHistory(before, name);
      match last
      case Back(m) => BackendKeepsNames(Run(before), m);
      case Front(m) =>
        if m.Bind? {
          NamesFollowHistory(before, m.statement);
        }
    }
  }

  lemma RecordedSnoc(records: seq<Record>, last: Record)
    ensures Recorded(records + [last]) == Recorded(records) + if last.Reply? then [last.request] else []
  {
    RepliesSnoc(records, last);
  }

  lemma BackendConserves(s: State, m: Backend)
    ensures var after := OnBackend(s, m);
            Recorded(after.records) + Waiting(after.pending) == Recorded(s.records) + Waiting(s.pending)
  {
    hide Recorded;
    var after := OnBackend(s, m);
    if |after.records| > |s.records| {
      RecordedSnoc(s.records, after.records[|s.records|]);
      assert after.records == s.records + [after.records[|s.records|]];
    }
    if |after.pending| < |s.pending| {
      assert Waiting(s.pending) == [s.pending[0].request] + Waiting(after.pending);
    } else {
      assert Waiting(s.pending) == Waiting(after.pending);
    }
  }

  /**
   Over every run, simple queries, errors and notifications included: what was sent is what has
   been recorded and, behind it, what is waiting. Nothing is lost, doubled or put out of order.
   */
  lemma {:induction false} RequestsConserved(events: seq<Event>)
    ensures Recorded(Run(events).records) + Waiting(Run(events).pending) == Sent(events)
  {
    hide Recorded, OnBackend;
    if events == [] {
      assert Recorded([]) == [] by {
        NothingRecorded();
      }
    } else {
      var before, last := events[..|events| - 1], events[|events| - 1];
      RequestsConserved(before);
      match last
      case Back(m) => BackendConserves(Run(before), m);
      case Front(m) =>
        var s, after := Run(before), OnFrontend(Run(before), m);
        if m.Execute? {
          NamesFollowHistory(before, m.portal);
        }
        if |after.pending| > |s.pending| {
          assert Waiting(after.pending) == Waiting(s.pending) + [after.pending[|s.pending|].request];
        }
    }
  }

  lemma NothingRecorded()
    ensures Recorded([]) == []
  {
  }

  // ----- extended pipelines without errors -----------------------------------------------------

  /** The messages that end the reply to an Execute. */
  predicate Ends(m: Backend) {
    m.CommandComplete? || m.PortalSuspended? || m.EmptyQuery?
  }

  function TagsOf(m: Backend): seq<string> {
    if m.CommandComplete? then [m.tag] else []
  }

  /** How many rows each finished reply block had, with its tags, and the rows of the block still open. */
  function Blocks(events: seq<Event>): (seq<(nat, seq<string>)>, nat) {
    if events == [] then ([], 0)
    else
      var (closed, rows) := Blocks(events[..|events| - 1]);
      match events[|events| - 1]
      case Front(_) => (closed, rows)
      case Back(m) =>
        if m.DataRow? then (closed, rows + 1)
        else if Ends(m) then (closed + [(rows, TagsOf(m))], 0)
        else (closed, rows)
  }

  /** No simple query, no error, and the server answers only an Execute it has been sent. */
  predicate Pipelined(events: seq<Event>) {
    events == [] ||
    var before, last := events[..|events| - 1], events[|events| - 1];
    && Pipelined(before)
    && match last
       case Front(m) => !m.Query?
       case Back(m) => !m.Failure? && (m.DataRow? || Ends(m) ==> |Blocks(before).0| < |Sent(before)|)
  }

  /** The record that the i-th Execute of a run should have. */
  function Expected(request: Request, block: (nat, seq<string>)): Record {
    Reply(request, block.0, block.1, true, "", "")
  }

  predicate Correlated(s: State, sent: seq<Request>, closed: seq<(nat, seq<string>)>, rows: nat) {
    && |closed| <= |sent| && s.deferred == None
    && |Replies(s.records)| == |closed|
    && (forall i :: 0 <= i < |closed| ==> Replies(s.records)[i] == Expected(sent[i], closed[i]))
    && |s.pending| == |sent| - |closed|
    && (forall i :: 0 <= i < |s.pending| ==>
        s.pending[i] == Pending(sent[|closed| + i], if i == 0 then rows else 0, [], "", ""))
    && (forall i :: 0 <= i < |sent| ==> !sent[i].simple)
    && (|closed| == |sent| ==> rows == 0)
  }

  lemma FrontendCorrelated(s: State, m: Frontend, sent: seq<Request>, closed: seq<(nat, seq<string>)>, rows: nat)
    requires Correlated(s, sent, closed, rows) && !m.Query?
    ensures Correlated(OnFrontend(s, m),
                       sent + if m.Execute? then [Request(false, Get(s.portals, m.portal))] else [], closed, rows)
  {
    hide Replies;
    if !m.Execute? {
      assert sent + [] == sent;
    }
  }

  lemma BackendCorrelated(s: State, m: Backend, sent: seq<Request>, closed: seq<(nat, seq<string>)>, rows: nat)
    requires Correlated(s, sent, closed, rows) && !m.Failure? && (m.DataRow? || Ends(m) ==> |closed| < |sent|)
    ensures Ends(m) ==> Correlated(OnBackend(s, m), sent, closed + [(rows, TagsOf(m))], 0)
    ensures m.DataRow? ==> Correlated(OnBackend(s, m), sent, closed, rows + 1)
    ensures !Ends(m) && !m.DataRow? ==> Correlated(OnBackend(s, m), sent, closed, rows)
  {
    hide Replies;
    if m.Notification? {
      RepliesSnoc(s.records, Notice(m.channel, m.payload));
    } else if Ends(m) {
      var current := s.pending[0];
      assert current == Pending(sent[|closed|], rows, [], "", "");
      var after := OnBackend(s, m);
      assert [] + TagsOf(m) == TagsOf(m);
      RepliesSnoc(s.records, Expected(sent[|closed|], (rows, TagsOf(m))));
      assert after.records == s.records + [Expected(sent[|closed|], (rows, TagsOf(m)))];
      assert Replies(after.records) == Replies(s.records) + [Expected(sent[|closed|], (rows, TagsOf(m)))];
    }
  }

  /** The state after a pipelined run, as it follows from the requests and the reply blocks alone. */
  lemma {:induction false} RunCorrelated(events: seq<Event>)
    requires Pipelined(events)
    ensures Correlated(Run(events), Sent(events), Blocks(events).0, Blocks(events).1)
  {
    hide Correlated, OnFrontend, OnBackend;
    if events == [] {
      NothingCorrelated();
    } else {
      var before, last := events[..|events| - 1], events[|events| - 1];
      RunCorrelated(before);
      var (closed, rows) := Blocks(before);
      match last
      case Front(m) =>
        if m.Execute? {
          NamesFollowHistory(before, m.portal);
        }
        FrontendCorrelated(Run(before), m, Sent(before), closed, rows);
        assert Sent(before) + [] == Sent(before);
      case Back(m) =>
        BackendCorrelated(Run(before), m, Sent(before), closed, rows);
        assert Sent(before) + [] == Sent(before);
    }
  }

  lemma NothingCorrelated()
    ensures Correlated(START, [], [], 0)
  {
  }

  /**
   In every interleaving of a pipelined run, with any number of Executes outstanding and Syncs
   anywhere: the i-th record is that of the i-th Execute, with the rows and tag of its own block.
   */
  lemma IthRecordIsIthExecute(events: seq<Event>, i: nat)
    requires Pipelined(events) && i < |Replies(Run(events).records)|
    ensures |Replies(Run(events).records)| == |Blocks(events).0| <= |Sent(events)|
    ensures Replies(Run(events).records)[i] == Expected(Sent(events)[i], Blocks(events).0[i])
    ensures |Run(events).pending| == |Sent(events)| - |Blocks(events).0|
  {
    hide Replies, Run, Blocks, Sent, Pipelined;
    RunCorrelated(events);
  }

  /** When a batch of replies is complete, nothing is waiting. */
  lemma AllAnswered(events: seq<Event>)
    requires Pipelined(events) && |Blocks(events).0| == |Sent(events)|
    ensures Run(events).pending == [] && |Replies(Run(events).records)| == |Sent(events)|
  {
    hide Replies, Run, Blocks, Sent, Pipelined;
    RunCorrelated(events);
  }
}

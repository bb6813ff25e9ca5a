/**
 Incremental reassembly of gRPC messages: a five-byte header, a flag and a big-endian length, then
 the message. The chunked loop refines a machine that takes one byte at a time, so how the
 transport cuts the stream cannot be seen in the result.
 */
module GrpcStream {
  import opened Bytes

  const MAX_SNAPSHOTS: nat := 100
  const MAX_OBSERVATIONS: nat := 1000
  const MAX_ERRORS: nat := 10

  /** What is kept of a message; rendering it as JSON is not part of this model. */
  datatype Snapshot = Snapshot(capture: seq<byte>, length: nat, compressed: bool, truncated: bool)

  datatype Issue = InvalidFlag(flag: byte) | IncompleteMessage(missing: nat, length: nat) | IncompleteHeader(read: nat)

  datatype State = State(
    header: seq<byte>,
    active: bool,
    compressed: bool,
    length: nat,
    remaining: nat,
    capture: seq<byte>,
    count: nat,
    snapshots: seq<Snapshot>,
    records: seq<(Snapshot, nat)>,
    truncated: bool,
    errors: seq<Issue>)

  const START: State := State([], false, false, 0, 0, [], 0, [], [], false, [])

  // ----- one byte at a time --------------------------------------------------------------------

  function AddError(s: State, issue: Issue): State {
    if |s.errors| < MAX_ERRORS then s.(errors := s.errors + [issue]) else s
  }

  /** The current message is over. */
  function Complete(s: State): State {
    var snapshot := Snapshot(s.capture, s.length, s.compressed, |s.capture| != s.length);
    s.(count := s.count + 1,
       truncated := s.truncated || snapshot.truncated || |s.snapshots| >= MAX_SNAPSHOTS,
       snapshots := if |s.snapshots| < MAX_SNAPSHOTS then s.snapshots + [snapshot] else s.snapshots,
       records := if |s.records| < MAX_OBSERVATIONS then s.records + [(snapshot, s.count + 1)] else s.records,
       active := false, remaining := 0, length := 0, capture := [])
  }

  lemma CompleteFields(s: State, snapshot: Snapshot)
    requires snapshot == Snapshot(s.capture, s.length, s.compressed, |s.capture| != s.length)
    ensures Complete(s) == State(s.header, false, s.compressed, 0, 0, [], s.count + 1,
      if |s.snapshots| < MAX_SNAPSHOTS then s.snapshots + [snapshot] else s.snapshots,
      if |s.records| < MAX_OBSERVATIONS then s.records + [(snapshot, s.count + 1)] else s.records,
      s.truncated || snapshot.truncated || |s.snapshots| >= MAX_SNAPSHOTS, s.errors)
  {
  }

  /** All five header bytes are there. */
  function OpenMessage(s: State, header: seq<byte>): State
    requires |header| == 5
  {
    var flagged := if header[0] != 0 && header[0] != 1 then AddError(s, InvalidFlag(header[0])) else s;
    var length := BigEndian(header[1..]);
    var started := flagged.(header := [], compressed := header[0] == 1, length := length, remaining := length,
                            capture := [], active := true);
    if length == 0 then Complete(started) else started
  }

  function FeedByte(s: State, b: byte): State {
    if !s.active then
      var header := s.header + [b];
      if |header| != 5 then s.(header := header) else OpenMessage(s, header)
    else
      var grown := s.(capture := if |s.capture| < CAPTURE_LIMIT then s.capture + [b] else s.capture,
                      remaining := if s.remaining > 0 then s.remaining - 1 else 0);
      if grown.remaining == 0 then Complete(grown) else grown
  }

  function Feed(s: State, data: seq<byte>): State
    decreases |data|
  {
    if data == [] then s else Feed(FeedByte(s, data[0]), data[1..])
  }

  function Finish(s: State): State {
    if s.active then AddError(s, IncompleteMessage(s.remaining, s.length))
    else if s.header != [] then AddError(s, IncompleteHeader(|s.header|))
    else s
  }

  /** States the stream can be in between two chunks. */
  predicate BetweenChunks(s: State) {
    && |s.header| < 5
    && (s.active ==> s.header == [] && 0 < s.remaining <= s.length
                     && |s.capture| == Min(CAPTURE_LIMIT, s.length - s.remaining))
    && (!s.active ==> s.remaining == 0 && s.length == 0 && s.capture == [])
    && |s.snapshots| == Min(MAX_SNAPSHOTS, s.count)
    && |s.records| == Min(MAX_OBSERVATIONS, s.count)
    && |s.errors| <= MAX_ERRORS
  }

  lemma FeedByteKeepsLimits(s: State, b: byte)
    requires BetweenChunks(s)
    ensures BetweenChunks(FeedByte(s, b))
  {
    hide BigEndian;
  }

  /** Captures, snapshots, observations and errors stay within their limits, whatever is fed. */
  lemma {:induction false} FeedKeepsLimits(s: State, data: seq<byte>)
    requires BetweenChunks(s)
    ensures BetweenChunks(Feed(s, data))
    decreases |data|
  {
    hide FeedByte, BetweenChunks;
    if data != [] {
      FeedByteKeepsLimits(s, data[0]);
      FeedKeepsLimits(FeedByte(s, data[0]), data[1..]);
    }
  }

  /** Feeding two chunks is feeding their concatenation, for every cut. */
  lemma {:induction false} SplitInvisible(s: State, a: seq<byte>, b: seq<byte>)
    ensures Feed(Feed(s, a), b) == Feed(s, a + b)
    decreases |a|
  {
    hide FeedByte;
    if a == [] {
      assert a + b == b;
    } else {
      assert (a + b)[0] == a[0] && (a + b)[1..] == a[1..] + b;
      SplitInvisible(FeedByte(s, a[0]), a[1..], b);
    }
  }

  // ----- whole chunks --------------------------------------------------------------------------

  /** Header bytes that do not reach the fifth. */
  lemma {:induction false} FeedHeader(s: State, chunk: seq<byte>)
    requires !s.active && |s.header| + |chunk| < 5
    ensures Feed(s, chunk) == s.(header := s.header + chunk)
    decreases |chunk|
  {
    if chunk == [] {
      assert s.header + chunk == s.header;
    } else {
      var next := s.(header := s.header + [chunk[0]]);
      assert FeedByte(s, chunk[0]) == next;
      FeedHeader(next, chunk[1..]);
      assert next.header + chunk[1..] == s.header + chunk;
    }
  }

  /** Header bytes up to the fifth. */
  lemma FeedWholeHeader(s: State, chunk: seq<byte>)
    requires !s.active && chunk != [] && |s.header| + |chunk| == 5
    ensures Feed(s, chunk) == OpenMessage(s, s.header + chunk)
  {
    var before, last := chunk[..|chunk| - 1], chunk[|chunk| - 1];
    assert chunk == before + [last];
    SplitInvisible(s, before, [last]);
    FeedHeader(s, before);
    var middle := s.(header := s.header + before);
    assert [last][1..] == [];
    assert Feed(middle, [last]) == FeedByte(middle, last);
    assert s.header + before + [last] == s.header + chunk;
    OpenForgetsHeader(middle, s, s.header + chunk);
  }

  lemma OpenForgetsHeader(a: State, b: State, header: seq<byte>)
    requires |header| == 5 && a == b.(header := a.header)
    ensures OpenMessage(a, header) == OpenMessage(b, header)
  {
    hide BigEndian;
  }

  /** What is kept after more of a message. */
  function Keep(capture: seq<byte>, chunk: seq<byte>): seq<byte> {
    if |capture| < CAPTURE_LIMIT then capture + chunk[..Min(|chunk|, CAPTURE_LIMIT - |capture|)] else capture
  }

  function Absorb(s: State, chunk: seq<byte>): State
    requires |chunk| <= s.remaining
  {
    var grown := s.(capture := Keep(s.capture, chunk), remaining := s.remaining - |chunk|);
    if grown.remaining == 0 then Complete(grown) else grown
  }

  lemma {:induction false} FeedBody(s: State, chunk: seq<byte>)
    requires s.active && 0 < |chunk| <= s.remaining && |s.capture| <= CAPTURE_LIMIT
    ensures Feed(s, chunk) == Absorb(s, chunk)
    decreases |chunk|
  {
    hide Complete;
    assert Keep(s.capture, [chunk[0]]) == if |s.capture| < CAPTURE_LIMIT then s.capture + [chunk[0]] else s.capture;
    assert chunk[0..1] == [chunk[0]] && chunk == [chunk[0]] + chunk[1..];
    KeepTwice(s.capture, [chunk[0]], chunk[1..]);
    if |chunk| == 1 {
      assert chunk[1..] == [];
    } else {
      FeedBody(FeedByte(s, chunk[0]), chunk[1..]);
    }
  }

  lemma KeepTwice(capture: seq<byte>, a: seq<byte>, b: seq<byte>)
    requires |capture| <= CAPTURE_LIMIT
    ensures Keep(Keep(capture, a), b) == Keep(capture, a + b)
    ensures |Keep(capture, a)| <= CAPTURE_LIMIT
  {
    KeepIsPrefix(capture, a);
    KeepIsPrefix(capture, a + b);
    KeepIsPrefix(Prefix(capture + a), b);
    assert capture + (a + b) == (capture + a) + b;
    PrefixOfPrefix(capture + a, b);
  }

  lemma KeepIsPrefix(capture: seq<byte>, chunk: seq<byte>)
    requires |capture| <= CAPTURE_LIMIT
    ensures Keep(capture, chunk) == Prefix(capture + chunk)
  {
    var room := CAPTURE_LIMIT - |capture|;
    if |chunk| <= room {
      assert chunk[..|chunk|] == chunk;
      assert room == 0 ==> capture + chunk == capture;
    } else {
      assert (capture + chunk)[..CAPTURE_LIMIT] == capture + chunk[..room];
      assert room == 0 ==> capture + chunk[..room] == capture;
    }
  }

  // ----- the stream object ---------------------------------------------------------------------

  class MessageStream {
    const header: array<byte>
    var headerBytes: nat
    var active: bool
    var compressed: bool
    var length: nat
    var remaining: nat
    var capture: seq<byte>
    var count: nat
    var emitted: nat
    var snapshots: seq<Snapshot>
    var records: seq<(Snapshot, nat)>
    var truncated: bool
    var errors: seq<Issue>

    ghost predicate Consistent()
      reads this, header
    {
      header.Length == 5 && headerBytes < 5 && emitted == |records| && BetweenChunks(View())
    }

    ghost function View(): State
      requires headerBytes <= header.Length
      reads this, header
    {
      State(header[..headerBytes], active, compressed, length, remaining, capture, count, snapshots, records, truncated, errors)
    }

    constructor ()
      ensures Consistent() && fresh(header) && View() == START
    {
      header := new byte[5](_ => 0);
      headerBytes, active, compressed, length, remaining := 0, false, false, 0, 0;
      capture, count, emitted, snapshots, records := [], 0, 0, [], [];
      truncated, errors := false, [];
    }

    method RecordError(issue: Issue)
      requires header.Length == 5 && headerBytes <= 5
      modifies this`errors
      ensures View() == AddError(old(View()), issue)
    {
      if |errors| < MAX_ERRORS {
        errors := errors + [issue];
      }
    }

    method RecordMessage(snapshot: Snapshot, index: nat)
      modifies this`records
      ensures records == old(records) + [(snapshot, index)]
    {
      records := records + [(snapshot, index)];
    }

    method CompleteMessage()
      requires header.Length == 5 && headerBytes <= 5 && emitted == |records|
      modifies this
      ensures headerBytes == old(headerBytes) && emitted == |records| && View() == Complete(old(View()))
    {
      hide AddError, BetweenChunks, Complete;
      ghost var before := View();
      count := count + 1;
      var short := |capture| != length;
      var snapshot := Snapshot(capture, length, compressed, short);
      KeepSnapshot(snapshot);
      if emitted < MAX_OBSERVATIONS {
        emitted := emitted + 1;
        RecordMessage(snapshot, count);
      }
      active, remaining, length, capture := false, 0, 0, [];
      assert header[..headerBytes] == before.header;
      CompleteFields(before, snapshot);
    }

    method KeepSnapshot(snapshot: Snapshot)
      modifies this`snapshots, this`truncated
      ensures snapshots == if |old(snapshots)| < MAX_SNAPSHOTS then old(snapshots) + [snapshot] else old(snapshots)
      ensures truncated == (old(truncated) || snapshot.truncated || |old(snapshots)| >= MAX_SNAPSHOTS)
    {
      truncated := truncated || snapshot.truncated;
      if |snapshots| < MAX_SNAPSHOTS {
        snapshots := snapshots + [snapshot];
      } else {
        truncated := true;
      }
    }

    /** Takes header bytes; true once a message has been opened. */
    method TakeHeader(data: seq<byte>) returns (used: nat)
      requires Consistent() && !active && data != []
      modifies this, header
      ensures Consistent() && 0 < used <= |data|
      ensures View() == Feed(old(View()), data[..used])
    {
      hide BigEndian, BetweenChunks;
      ghost var before := View();
      used := Min(5 - headerBytes, |data|);
      forall i | 0 <= i < used {
        header[headerBytes + i] := data[i];
      }
      assert header[..headerBytes + used] == before.header + data[..used];
      headerBytes := headerBytes + used;
      FeedKeepsLimits(before, data[..used]);
      if headerBytes < 5 {
        FeedHeader(before, data[..used]);
        return;
      }
      FeedWholeHeader(before, data[..used]);
      ghost var full := View();
      assert full == before.(header := before.header + data[..used]);
      StartMessage();
      OpenForgetsHeader(full, before, full.header);
    }

    /** The fifth header byte has arrived. */
    method StartMessage()
      requires header.Length == 5 && headerBytes == 5 && emitted == |records|
      modifies this
      ensures headerBytes == 0 && emitted == |records|
      ensures View() == OpenMessage(old(View()), old(View()).header)
    {
      hide BigEndian, Complete;
      var flag := header[0];
      compressed := flag == 1;
      if flag != 0 && flag != 1 {
        RecordError(InvalidFlag(flag));
      }
      assert header[1..] == old(View()).header[1..];
      length := BigEndian(header[1..]);
      remaining := length;
      capture := [];
      headerBytes := 0;
      active := true;
      if remaining == 0 {
        CompleteMessage();
      }
    }

    method FeedChunk(chunk: seq<byte>)
      requires Consistent()
      modifies this, header
      ensures Consistent() && View() == Feed(old(View()), chunk)
    {
      hide BetweenChunks, Complete, FeedByte;
      ghost var before := View();
      var data := chunk;
      while |data| > 0
        invariant Consistent()
        invariant Feed(View(), data) == Feed(before, chunk)
        decreases |data|
      {
        ghost var now := View();
        if !active {
          var used := TakeHeader(data);
          assert data == data[..used] + data[used..];
          SplitInvisible(now, data[..used], data[used..]);
          data := data[used..];
        } else {
          var consume := TakeBody(data);
          assert data == data[..consume] + data[consume..];
          SplitInvisible(now, data[..consume], data[consume..]);
          data := data[consume..];
        }
      }
    }

    method TakeBody(data: seq<byte>) returns (consume: nat)
      requires Consistent() && active && data != []
      modifies this
      ensures Consistent() && 0 < consume <= |data|
      ensures View() == Feed(old(View()), data[..consume])
    {
      ghost var before := View();
      consume := Min(|data|, remaining);
      FeedBody(before, data[..consume]);
      FeedKeepsLimits(before, data[..consume]);
      if |capture| < CAPTURE_LIMIT {
        var kept := Min(consume, CAPTURE_LIMIT - |capture|);
        assert data[..consume][..kept] == data[..kept];
        capture := capture + data[..kept];
      }
      remaining := remaining - consume;
      if remaining == 0 {
        CompleteMessage();
      }
    }

    method FinishStream()
      requires Consistent()
      modifies this`errors
      ensures View() == Finish(old(View()))
    {
      if active {
        RecordError(IncompleteMessage(remaining, length));
      } else if headerBytes != 0 {
        RecordError(IncompleteHeader(headerBytes));
      }
    }
  }

  // ----- whole messages ------------------------------------------------------------------------

  datatype Message = Message(flag: byte, payload: seq<byte>)

  predicate Sized(messages: seq<Message>) {
    forall i :: 0 <= i < |messages| ==> |messages[i].payload| < Pow256(4)
  }

  function Envelope(m: Message): seq<byte>
    requires |m.payload| < Pow256(4)
  {
    [m.flag] + ToBigEndian(|m.payload|, 4) + m.payload
  }

  function Wire(messages: seq<Message>): seq<byte>
    requires Sized(messages)
  {
    if messages == [] then [] else Envelope(messages[0]) + Wire(messages[1..])
  }

  function SnapshotOf(m: Message): Snapshot {
    Snapshot(Prefix(m.payload), |m.payload|, m.flag == 1, |m.payload| > CAPTURE_LIMIT)
  }

  /** What a whole message does to an idle stream. */
  function Receive(s: State, m: Message): State {
    var flagged := if m.flag != 0 && m.flag != 1 then AddError(s, InvalidFlag(m.flag)) else s;
    var snapshot := SnapshotOf(m);
    flagged.(compressed := m.flag == 1,
             count := s.count + 1,
             truncated := s.truncated || snapshot.truncated || s.count >= MAX_SNAPSHOTS,
             snapshots := if s.count < MAX_SNAPSHOTS then s.snapshots + [snapshot] else s.snapshots,
             records := if s.count < MAX_OBSERVATIONS then s.records + [(snapshot, s.count + 1)] else s.records)
  }

  function ReceiveAll(s: State, messages: seq<Message>): State
    decreases |messages|
  {
    if messages == [] then s else ReceiveAll(Receive(s, messages[0]), messages[1..])
  }

  predicate Idle(s: State) {
    BetweenChunks(s) && !s.active && s.header == []
  }

  /** The stream after a message's header. */
  function Opened(s: State, m: Message): State {
    var flagged := if m.flag != 0 && m.flag != 1 then AddError(s, InvalidFlag(m.flag)) else s;
    flagged.(compressed := m.flag == 1, length := |m.payload|, remaining := |m.payload|, active := true)
  }

  lemma FeedEnvelopeHeader(s: State, m: Message)
    requires Idle(s) && |m.payload| < Pow256(4)
    ensures Feed(s, [m.flag] + ToBigEndian(|m.payload|, 4))
         == if m.payload == [] then Complete(Opened(s, m)) else Opened(s, m)
  {
    hide ToBigEndian, BigEndian, FeedByte, Complete;
    var header := [m.flag] + ToBigEndian(|m.payload|, 4);
    assert s.header + header == header;
    FeedWholeHeader(s, header);
    assert header[1..] == ToBigEndian(|m.payload|, 4);
    BigEndianInverse(|m.payload|, 4);
  }

  lemma CompleteReceives(s: State, m: Message)
    requires Idle(s)
    ensures Complete(Opened(s, m).(remaining := 0, capture := SnapshotOf(m).capture)) == Receive(s, m)
    ensures Idle(Receive(s, m))
  {
  }

  lemma FeedEnvelope(s: State, m: Message)
    requires Idle(s) && |m.payload| < Pow256(4)
    ensures Feed(s, Envelope(m)) == Receive(s, m) && Idle(Receive(s, m))
  {
    hide ToBigEndian, Complete, Receive, Feed;
    SplitInvisible(s, [m.flag] + ToBigEndian(|m.payload|, 4), m.payload);
    FeedEnvelopeHeader(s, m);
    CompleteReceives(s, m);
    if m.payload == [] {
      FeedNothing(Complete(Opened(s, m)));
    } else {
      FeedBody(Opened(s, m), m.payload);
      assert [] + m.payload[..Min(|m.payload|, CAPTURE_LIMIT)] == SnapshotOf(m).capture;
    }
  }

  /** Well-formed messages, in whatever chunks they arrive, are each counted, kept and recorded once, in order. */
  lemma {:induction false} FeedMessages(s: State, messages: seq<Message>)
    requires Idle(s) && Sized(messages)
    ensures Feed(s, Wire(messages)) == ReceiveAll(s, messages) && Idle(ReceiveAll(s, messages))
    decreases |messages|
  {
    hide Feed, Receive, Envelope, Idle;
    if messages == [] {
      FeedNothing(s);
    } else {
      FeedEnvelope(s, messages[0]);
      SplitInvisible(s, Envelope(messages[0]), Wire(messages[1..]));
      FeedMessages(Receive(s, messages[0]), messages[1..]);
    }
  }

  lemma FeedNothing(s: State)
    ensures Feed(s, []) == s
  {
  }

  function Snapshots(messages: seq<Message>): (snapshots: seq<Snapshot>)
    ensures |snapshots| == |messages|
  {
    if messages == [] then [] else Snapshots(messages[..|messages| - 1]) + [SnapshotOf(messages[|messages| - 1])]
  }

  /** After any messages: all are counted, the first 100 kept, the first 1000 recorded with their position. */
  lemma {:induction false} MessagesKept(messages: seq<Message>)
    requires Sized(messages)
    ensures var s, all := Feed(START, Wire(messages)), Snapshots(messages);
            && s.count == |messages|
            && s.snapshots == all[..Min(100, |messages|)]
            && |s.records| == Min(1000, |messages|)
            && (forall i :: 0 <= i < |s.records| ==> s.records[i] == (all[i], i + 1))
            && (s.truncated <==> |messages| > 100 || exists i :: 0 <= i < |messages| && all[i].truncated)
  {
    hide Feed, Wire, SnapshotOf;
    FeedMessages(START, messages);
    ReceivedKept(messages);
  }

  lemma {:induction false} ReceivedKept(messages: seq<Message>)
    ensures var s, all := ReceiveAll(START, messages), Snapshots(messages);
            && s.count == |messages|
            && s.snapshots == all[..Min(MAX_SNAPSHOTS, |messages|)]
            && |s.records| == Min(MAX_OBSERVATIONS, |messages|)
            && (forall i :: 0 <= i < |s.records| ==> s.records[i] == (all[i], i + 1))
            && (s.truncated <==> |messages| > MAX_SNAPSHOTS || exists i :: 0 <= i < |messages| && all[i].truncated)
  {
    hide SnapshotOf, Receive;
    if messages != [] {
      var before, last := messages[..|messages| - 1], messages[|messages| - 1];
      ReceivedKept(before);
      assert messages == before + [last];
      ReceiveSnoc(START, before, last);
      ReceiveOne(ReceiveAll(START, before), Snapshots(before), last);
    }
  }

  lemma ReceiveOne(s: State, all: seq<Snapshot>, last: Message)
    requires s.count == |all| && s.snapshots == all[..Min(MAX_SNAPSHOTS, |all|)]
    requires |s.records| == Min(MAX_OBSERVATIONS, |all|)
    requires forall i :: 0 <= i < |s.records| ==> s.records[i] == (all[i], i + 1)
    requires s.truncated <==> |all| > MAX_SNAPSHOTS || exists i :: 0 <= i < |all| && all[i].truncated
    ensures var after, more := Receive(s, last), all + [SnapshotOf(last)];
            && after.count == |more|
            && after.snapshots == more[..Min(MAX_SNAPSHOTS, |more|)]
            && |after.records| == Min(MAX_OBSERVATIONS, |more|)
            && (forall i :: 0 <= i < |after.records| ==> after.records[i] == (more[i], i + 1))
            && (after.truncated <==> |more| > MAX_SNAPSHOTS || exists i :: 0 <= i < |more| && more[i].truncated)
  {
    hide Receive, SnapshotOf;
    KeepsSnapshots(s, all, last);
    KeepsRecords(s, all, last);
    TruncatedOne(all, SnapshotOf(last));
  }

  lemma KeepsSnapshots(s: State, all: seq<Snapshot>, last: Message)
    requires s.count == |all| && s.snapshots == all[..Min(MAX_SNAPSHOTS, |all|)]
    ensures var after, more := Receive(s, last), all + [SnapshotOf(last)];
            && after.count == |more| && after.snapshots == more[..Min(MAX_SNAPSHOTS, |more|)]
            && (after.truncated <==> s.truncated || SnapshotOf(last).truncated || |all| >= MAX_SNAPSHOTS)
  {
    hide SnapshotOf;
  }

  lemma KeepsRecords(s: State, all: seq<Snapshot>, last: Message)
    requires s.count == |all| && |s.records| == Min(MAX_OBSERVATIONS, |all|)
    requires forall i :: 0 <= i < |s.records| ==> s.records[i] == (all[i], i + 1)
    ensures var after, more := Receive(s, last), all + [SnapshotOf(last)];
            && |after.records| == Min(MAX_OBSERVATIONS, |more|)
            && forall i :: 0 <= i < |after.records| ==> after.records[i] == (more[i], i + 1)
  {
    hide SnapshotOf;
  }

  lemma TruncatedOne(all: seq<Snapshot>, last: Snapshot)
    ensures var more := all + [last];
            (exists i :: 0 <= i < |more| && more[i].truncated)
            <==> last.truncated || exists i :: 0 <= i < |all| && all[i].truncated
  {
    var more := all + [last];
    if last.truncated {
      assert more[|all|].truncated;
    } else if i :| 0 <= i < |all| && all[i].truncated {
      assert more[i].truncated;
    }
  }

  lemma {:induction false} ReceiveSnoc(s: State, messages: seq<Message>, last: Message)
    ensures ReceiveAll(s, messages + [last]) == Receive(ReceiveAll(s, messages), last)
    decreases |messages|
  {
    hide Receive;
    if messages == [] {
      assert [last][1..] == [];
    } else {
      assert (messages + [last])[1..] == messages[1..] + [last];
      ReceiveSnoc(Receive(s, messages[0]), messages[1..], last);
    }
  }

  // ----- any bytes -----------------------------------------------------------------------------

  /** A stream that has received part of a message. */
  predicate PartOf(tail: seq<byte>) {
    |tail| < 5 || |tail| - 5 < BigEndian(tail[1..5])
  }

  /** The whole messages at the front of the bytes, and what is left. */
  function Decode(data: seq<byte>): (r: (seq<Message>, seq<byte>))
    ensures PartOf(r.1)
    decreases |data|
  {
    if PartOf(data) then ([], data)
    else
      var end := 5 + BigEndian(data[1..5]);
      var (rest, tail) := Decode(data[end..]);
      ([Message(data[0], data[5..end])] + rest, tail)
  }

  /** Any bytes are some whole messages and part of one; nothing is lost or counted twice. */
  lemma {:induction false} DecodeIsExact(data: seq<byte>)
    ensures var (messages, tail) := Decode(data);
            Sized(messages) && data == Wire(messages) + tail
    decreases |data|
  {
    hide BigEndian, ToBigEndian, Wire, Envelope, Sized, Pow256;
    if PartOf(data) {
      WireNothing();
    } else {
      var end := 5 + BigEndian(data[1..5]);
      var message := Message(data[0], data[5..end]);
      DecodeIsExact(data[end..]);
      FirstEnvelope(data);
      WireFront(message, Decode(data[end..]).0);
    }
  }

  lemma WireNothing()
    ensures Sized([]) && Wire([]) == []
  {
  }

  lemma WireFront(m: Message, rest: seq<Message>)
    requires Sized(rest) && |m.payload| < Pow256(4)
    ensures Sized([m] + rest)
    ensures Wire([m] + rest) == Envelope(m) + Wire(rest)
  {
    hide Envelope;
    var all := [m] + rest;
    assert all[0] == m && all[1..] == rest;
  }

  lemma FirstEnvelope(data: seq<byte>)
    requires !PartOf(data)
    ensures var end := 5 + BigEndian(data[1..5]);
            && end - 5 < Pow256(4)
            && data == Envelope(Message(data[0], data[5..end])) + data[end..]
  {
    hide BigEndian, ToBigEndian;
    ToBigEndianInverse(data[1..5]);
  }

  /**
   After any bytes, cut in any way: one count per whole message, and the bytes behind the last
   whole message are exactly those of the header or message in progress.
   */
  lemma BytesAccountedFor(data: seq<byte>)
    ensures var (messages, tail) := Decode(data);
            var s := Feed(START, data);
            && Sized(messages) && s == Feed(ReceiveAll(START, messages), tail)
            && s.count == |messages|
            && |data| == |Wire(messages)| + |tail|
            && |tail| == (if s.active then 5 + (s.length - s.remaining) else |s.header|)
  {
    hide FeedByte, BigEndian, Wire, Decode;
    var (messages, tail) := Decode(data);
    DecodeIsExact(data);
    SplitInvisible(START, Wire(messages), tail);
    FeedMessages(START, messages);
    ReceivedKept(messages);
    FeedTail(ReceiveAll(START, messages), tail);
  }

  lemma FeedTail(s: State, tail: seq<byte>)
    requires Idle(s) && PartOf(tail)
    ensures var after := Feed(s, tail);
            && after.count == s.count
            && |tail| == (if after.active then 5 + (after.length - after.remaining) else |after.header|)
  {
    hide FeedByte, BigEndian;
    if |tail| < 5 {
      FeedHeader(s, tail);
    } else {
      var header, body := tail[..5], tail[5..];
      assert tail == header + body && header[1..] == tail[1..5] && s.header + header == header;
      SplitInvisible(s, header, body);
      FeedWholeHeader(s, header);
      if body == [] {
        FeedNothing(OpenMessage(s, header));
      } else {
        FeedBody(OpenMessage(s, header), body);
      }
    }
  }

  /** At the end of the stream exactly an unfinished message or header is reported, with what is missing of it. */
  lemma FinishReports(data: seq<byte>)
    ensures var (messages, tail) := Decode(data);
            var s := Feed(START, data);
            Finish(s) == if tail == [] then s
                         else if |tail| < 5 then AddError(s, IncompleteHeader(|tail|))
                         else AddError(s, IncompleteMessage(5 + BigEndian(tail[1..5]) - |tail|, BigEndian(tail[1..5])))
  {
    hide FeedByte, BigEndian, Wire, AddError;
    var (messages, tail) := Decode(data);
    DecodeIsExact(data);
    SplitInvisible(START, Wire(messages), tail);
    FeedMessages(START, messages);
    var idle := ReceiveAll(START, messages);
    if |tail| < 5 {
      FeedHeader(idle, tail);
    } else {
      FeedPartOfMessage(idle, tail);
    }
  }

  lemma FeedPartOfMessage(s: State, tail: seq<byte>)
    requires Idle(s) && PartOf(tail) && |tail| >= 5
    ensures var after, length := Feed(s, tail), BigEndian(tail[1..5]);
            after.active && after.length == length && after.remaining == 5 + length - |tail|
  {
    hide FeedByte, BigEndian;
    var header, body := tail[..5], tail[5..];
    assert tail == header + body && header[1..] == tail[1..5] && s.header + header == header;
    SplitInvisible(s, header, body);
    FeedWholeHeader(s, header);
    if body == [] {
      FeedNothing(OpenMessage(s, header));
    } else {
      FeedBody(OpenMessage(s, header), body);
    }
  }

  // ----- what is reported ----------------------------------------------------------------------

  /** Only flags 0 and 1 are known. */
  function FlagIssues(messages: seq<Message>): seq<Issue> {
    if messages == [] then []
    else
      var last := messages[|messages| - 1];
      FlagIssues(messages[..|messages| - 1]) + (if last.flag > 1 then [InvalidFlag(last.flag)] else [])
  }

  function TailIssues(tail: seq<byte>): seq<Issue>
    requires PartOf(tail)
  {
    if tail == [] then []
    else if |tail| < 5 then [IncompleteHeader(|tail|)]
    else
      (if tail[0] > 1 then [InvalidFlag(tail[0])] else [])
      + [IncompleteMessage(5 + BigEndian(tail[1..5]) - |tail|, BigEndian(tail[1..5]))]
  }

  function FirstTen(issues: seq<Issue>): seq<Issue> {
    if |issues| <= 10 then issues else issues[..10]
  }

  lemma OneMoreIssue(s: State, issues: seq<Issue>, issue: Issue)
    requires s.errors == FirstTen(issues)
    ensures AddError(s, issue).errors == FirstTen(issues + [issue])
  {
    if |issues| >= 10 {
      assert (issues + [issue])[..10] == issues[..10];
    }
  }

  lemma NoIssues()
    ensures FirstTen([]) == []
  {
  }

  lemma OneReceived(s: State, issues: seq<Issue>, last: Message)
    requires s.errors == FirstTen(issues)
    ensures Receive(s, last).errors == FirstTen(issues + (if last.flag > 1 then [InvalidFlag(last.flag)] else []))
  {
    hide AddError, FirstTen, SnapshotOf;
    OneMoreIssue(s, issues, InvalidFlag(last.flag));
    assert issues + [] == issues;
  }

  lemma {:induction false} ReceivedErrors(messages: seq<Message>)
    ensures ReceiveAll(START, messages).errors == FirstTen(FlagIssues(messages))
  {
    hide FirstTen, Receive;
    if messages == [] {
      NoIssues();
    } else {
      var before, last := messages[..|messages| - 1], messages[|messages| - 1];
      ReceivedErrors(before);
      assert messages == before + [last];
      ReceiveSnoc(START, before, last);
      OneReceived(ReceiveAll(START, before), FlagIssues(before), last);
    }
  }

  /** A message in progress: only its flag has been looked at. */
  lemma TailFlag(s: State, tail: seq<byte>)
    requires Idle(s) && PartOf(tail) && |tail| >= 5
    ensures Feed(s, tail).errors == (if tail[0] > 1 then AddError(s, InvalidFlag(tail[0])) else s).errors
  {
    hide FeedByte, BigEndian;
    var header, body := tail[..5], tail[5..];
    assert tail == header + body && header[1..] == tail[1..5] && s.header + header == header;
    SplitInvisible(s, header, body);
    FeedWholeHeader(s, header);
    if body == [] {
      FeedNothing(OpenMessage(s, header));
    } else {
      FeedBody(OpenMessage(s, header), body);
    }
  }

  /**
   After any bytes and the end of the stream the errors are the first ten of these, in this order: every unknown flag, also that of a message
   in progress, and the unfinished message or header.
   */
  lemma ErrorsReported(data: seq<byte>)
    ensures var (messages, tail) := Decode(data);
            Finish(Feed(START, data)).errors == FirstTen(FlagIssues(messages) + TailIssues(tail))
  {
    hide FeedByte, BigEndian, Wire, AddError, Decode, FirstTen;
    var (messages, tail) := Decode(data);
    DecodeIsExact(data);
    SplitInvisible(START, Wire(messages), tail);
    FeedMessages(START, messages);
    ReceivedErrors(messages);
    var idle, issues := ReceiveAll(START, messages), FlagIssues(messages);
    if |tail| < 5 {
      FeedHeader(idle, tail);
      assert issues + [] == issues && idle.header + tail == tail;
      OneMoreIssue(Feed(idle, tail), issues, IncompleteHeader(|tail|));
    } else {
      FeedPartOfMessage(idle, tail);
      TailFlag(idle, tail);
      var after := Feed(idle, tail);
      var missing := IncompleteMessage(after.remaining, after.length);
      OneMoreIssue(idle, issues, InvalidFlag(tail[0]));
      OneMoreIssue(after, if tail[0] > 1 then issues + [InvalidFlag(tail[0])] else issues, missing);
      assert issues + ([InvalidFlag(tail[0])] + [missing]) == issues + [InvalidFlag(tail[0])] + [missing];
      assert issues + ([] + [missing]) == issues + [missing];
    }
  }
}

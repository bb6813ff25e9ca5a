/** The MySQL response reader as a function of the upstream's bytes: where each response ends and what it held. */
module MysqlResponse {
  import opened Wrappers
  import opened Bytes
  import opened Streams
  import opened MysqlPacket
  import opened MysqlReplies

  datatype Problem =
    | Framing(error: MysqlPacket.Error)
    | EmptyPacket
    | BadOk
    | LocalInfile
    | BadColumnCount
    | MissingColumnEnd
    | BadPrepare

  datatype Command = Query | Statistics | StmtPrepare | FieldList | StmtFetch | Other

  datatype Info = Info(failed: bool, status: nat, columns: nat, rows: nat, statementID: nat, parameters: nat)

  /** Where the reader is, the sequence it expects, and what it has counted. */
  datatype Stream = Stream(pos: nat, sequence: byte, size: nat, truncated: bool)

  datatype Read<+T> = Read(result: T, stream: Stream)

  const FAILED: Info := Info(true, 0, 0, 0, 0, 0)

  function Okay(status: nat): Info {
    Info(false, status, 0, 0, 0, 0)
  }

  /** The next logical packet, as captured. */
  function NextPacket(s: seq<byte>, st: Stream): (r: Result<Read<seq<byte>>, Problem>)
    requires st.pos <= |s|
    ensures r.Ok? ==> st.pos + 4 <= r.value.stream.pos <= |s|
  {
    match ParseLogical(s, st.pos, st.sequence)
    case Err(error) => Err(Framing(error))
    case Ok(p) =>
      Ok(Read(Prefix(p.result),
              Stream(p.next, NextSequence(st.sequence, |p.result|), st.size + |p.result|,
                     st.truncated || |p.result| > CAPTURE_LIMIT)))
  }

  // ----- the reader ----------------------------------------------------------------------------

  function Skip(s: seq<byte>, st: Stream, count: nat): (r: Result<Stream, Problem>)
    requires st.pos <= |s|
    ensures r.Ok? ==> st.pos <= r.value.pos <= |s|
    decreases count
  {
    if count == 0 then Ok(st)
    else
      var packet :- NextPacket(s, st);
      Skip(s, packet.stream, count - 1)
  }

  /** Rows up to and including an error or a terminator. */
  function ReadRows(s: seq<byte>, st: Stream, count: nat): (r: Result<Read<(nat, seq<byte>)>, Problem>)
    requires st.pos <= |s|
    ensures r.Ok? ==> st.pos <= r.value.stream.pos <= |s|
    decreases |s| - st.pos
  {
    var row :- NextPacket(s, st);
    if IsRow(row.result) then ReadRows(s, row.stream, count + 1)
    else Ok(Read((count, row.result), row.stream))
  }

  function ReadGeneral(s: seq<byte>, st: Stream, first: seq<byte>, caps: Capabilities, command: Command)
    : (r: Result<Read<Info>, Problem>)
    requires st.pos <= |s|
    ensures r.Ok? ==> st.pos <= r.value.stream.pos <= |s|
    decreases |s| - st.pos, 2
  {
    if first == [] then Err(EmptyPacket)
    else if first[0] == 0xff then Ok(Read(FAILED, st))
    else if first[0] == 0x00 then
      match ParseOk(first, caps)
      case None => Err(BadOk)
      case Some(status) =>
        if More(status) then ReadMore(s, st, Okay(status), caps, command) else Ok(Read(Okay(status), st))
    else if first[0] == 0xfb then Err(LocalInfile)
    else if command == Statistics then Ok(Read(Okay(0), st))
    else ReadResultset(s, st, first, caps)
  }

  function ReadResultset(s: seq<byte>, st: Stream, first: seq<byte>, caps: Capabilities): (r: Result<Read<Info>,
                        Problem>)
    requires st.pos <= |s|
    ensures r.Ok? ==> st.pos <= r.value.stream.pos <= |s|
    decreases |s| - st.pos, 1
  {
    match ColumnCount(first)
    case None => Err(BadColumnCount)
    case Some(columns) =>
      var defined :- Skip(s, st, columns);
      var ready :- ColumnsEnd(s, defined, caps);
      var rows :- ReadRows(s, ready, 0);
      var (count, end) := rows.result;
      if IsError(end) then Ok(Read(FAILED.(columns := columns, rows := count), rows.stream))
      else
        var info := Okay(TerminatorStatus(end, caps)).(columns := columns, rows := count);
        if More(info.status) then ReadMore(s, rows.stream, info, caps, Query) else Ok(Read(info, rows.stream))
  }

  /** The terminator after the column definitions, where the protocol still has one. */
  function ColumnsEnd(s: seq<byte>, st: Stream, caps: Capabilities): (r: Result<Stream, Problem>)
    requires st.pos <= |s|
    ensures r.Ok? ==> st.pos <= r.value.pos <= |s|
  {
    if caps.deprecateEOF then Ok(st)
    else
      var end :- NextPacket(s, st);
      if IsEOF(end.result) then Ok(end.stream) else Err(MissingColumnEnd)
  }

  function Accumulate(sofar: Info, next: Info): Info {
    sofar.(status := next.status, rows := sofar.rows + next.rows, columns := sofar.columns + next.columns,
           failed := sofar.failed || next.failed)
  }

  function ReadMore(s: seq<byte>, st: Stream, sofar: Info, caps: Capabilities, command: Command)
    : (r: Result<Read<Info>, Problem>)
    requires st.pos <= |s|
    ensures r.Ok? ==> st.pos <= r.value.stream.pos <= |s|
    decreases |s| - st.pos, 0
  {
    if !More(sofar.status) then Ok(Read(sofar, st))
    else
      var first :- NextPacket(s, st);
      var next :- ReadGeneral(s, first.stream, first.result, caps, command);
      ReadMore(s, next.stream, Accumulate(sofar, next.result), caps, command)
  }

  function ReadPrepare(s: seq<byte>, st: Stream, caps: Capabilities): (r: Result<Read<Info>, Problem>)
    requires st.pos <= |s|
    ensures r.Ok? ==> st.pos <= r.value.stream.pos <= |s|
  {
    var first :- NextPacket(s, st);
    var payload := first.result;
    if payload == [] then Err(EmptyPacket)
    else if payload[0] == 0xff then Ok(Read(FAILED, first.stream))
    else if payload[0] != 0x00 || |payload| < 12 then Err(BadPrepare)
    else
      var columns, parameters := LittleEndian(payload[5..7]), LittleEndian(payload[7..9]);
      var afterParameters :- SkipDefinitions(s, first.stream, parameters, caps);
      var afterColumns :- SkipDefinitions(s, afterParameters, columns, caps);
      Ok(Read(Info(false, 0, columns, 0, LittleEndian(payload[1..5]), parameters), afterColumns))
  }

  function SkipDefinitions(s: seq<byte>, st: Stream, count: nat, caps: Capabilities): (r: Result<Stream, Problem>)
    requires st.pos <= |s|
    ensures r.Ok? ==> st.pos <= r.value.pos <= |s|
  {
    Skip(s, st, count + (if count > 0 && !caps.deprecateEOF then 1 else 0))
  }

  function ReadUntilTerminator(s: seq<byte>, st: Stream): (r: Result<Read<Info>, Problem>)
    requires st.pos <= |s|
    ensures r.Ok? ==> st.pos <= r.value.stream.pos <= |s|
  {
    var rows :- ReadRows(s, st, 0);
    Ok(Read(if IsError(rows.result.1) then FAILED else Okay(0).(rows := rows.result.0), rows.stream))
  }

  function ReadResponse(s: seq<byte>, st: Stream, caps: Capabilities, command: Command): (r: Result<Read<Info>,
                        Problem>)
    requires st.pos <= |s|
  {
    if command == StmtPrepare then ReadPrepare(s, st, caps)
    else if command == FieldList || command == StmtFetch then ReadUntilTerminator(s, st)
    else
      var first :- NextPacket(s, st);
      ReadGeneral(s, first.stream, first.result, caps, command)
  }

  // ----- responses a server can send -----------------------------------------------------------

  /** One result: OK, an error, or a result set with its rows and what ends them; with the status it reports. */
  datatype Part =
    | OkPart(packet: seq<byte>, status: nat)
    | ErrorPart(packet: seq<byte>)
    | RowsPart(count: seq<byte>, columns: seq<seq<byte>>, columnsEnd: seq<seq<byte>>, rows: seq<seq<byte>>, end: seq<byte>, status: nat)

  predicate AllRows(rows: seq<seq<byte>>) {
    forall i :: 0 <= i < |rows| ==> IsRow(Prefix(rows[i]))
  }

  /** A part as the protocol defines it; packets are read through the capture, which keeps their first 256 KiB. */
  ghost predicate PartOf(part: Part, caps: Capabilities) {
    match part
    case OkPart(packet, status) => packet != [] && packet[0] == 0x00 && IsOk(Prefix(packet), caps, status)
    case ErrorPart(packet) => IsError(packet)
    case RowsPart(count, columns, columnsEnd, rows, end, status) =>
      && count != [] && count[0] != 0x00 && count[0] != 0xff && count[0] != 0xfb
      && Counts(Prefix(count), |columns|)
      && (if caps.deprecateEOF then columnsEnd == [] else |columnsEnd| == 1 && IsEOF(columnsEnd[0]))
      && AllRows(rows) && ((IsError(end) && status == 0) || Ends(end, caps, status))
  }

  function PacketsOf(part: Part): (packets: seq<seq<byte>>)
    ensures packets != []
  {
    match part
    case OkPart(packet, _) => [packet]
    case ErrorPart(packet) => [packet]
    case RowsPart(count, columns, columnsEnd, rows, end, _) => [count] + (columns + (columnsEnd + (rows + [end])))
  }

  /** What a part reports; a failure reports no status. */
  function InfoOf(part: Part): Info {
    match part
    case OkPart(_, status) => Info(false, status, 0, 0, 0, 0)
    case ErrorPart(_) => Info(true, 0, 0, 0, 0, 0)
    case RowsPart(_, columns, _, rows, end, status) => Info(IsError(end), status, |columns|, |rows|, 0, 0)
  }

  /** Any number of results, each but the last announcing another. */
  ghost predicate ResponseOf(parts: seq<Part>, caps: Capabilities) {
    && parts != []
    && (forall i :: 0 <= i < |parts| ==> PartOf(parts[i], caps))
    && (forall i :: 0 <= i < |parts| - 1 ==> Announces(InfoOf(parts[i]).status))
    && !Announces(InfoOf(parts[|parts| - 1]).status)
  }

  function AllPackets(parts: seq<Part>): seq<seq<byte>> {
    if parts == [] then [] else PacketsOf(parts[0]) + AllPackets(parts[1..])
  }

  /** Rows and columns summed; the status and any failure are the last result's. */
  function Total(parts: seq<Part>): Info
    requires parts != []
  {
    if |parts| == 1 then InfoOf(parts[0]) else Accumulate(InfoOf(parts[0]), Total(parts[1..]))
  }

  function Sum(parts: seq<Part>): (nat, nat) {
    if parts == [] then (0, 0)
    else
      var (rows, columns) := Sum(parts[1..]);
      (InfoOf(parts[0]).rows + rows, InfoOf(parts[0]).columns + columns)
  }

  /** The wire form of logical packets from a sequence on. */
  function Wire(sequence: byte, packets: seq<seq<byte>>): seq<byte>
    decreases |packets|
  {
    if packets == [] then []
    else Physical(sequence, packets[0]) + Wire(NextSequence(sequence, |packets[0]|), packets[1..])
  }

  /** The packets stand next in the stream. */
  predicate Ahead(s: seq<byte>, st: Stream, packets: seq<seq<byte>>) {
    st.pos <= |s| && At(s, st.pos, Wire(st.sequence, packets))
  }

  function After(st: Stream, packet: seq<byte>): Stream {
    Stream(st.pos + |Physical(st.sequence, packet)|, NextSequence(st.sequence, |packet|), st.size + |packet|,
           st.truncated || |packet| > CAPTURE_LIMIT)
  }

  function AfterAll(st: Stream, packets: seq<seq<byte>>): Stream
    decreases |packets|
  {
    if packets == [] then st else AfterAll(After(st, packets[0]), packets[1..])
  }

  // ----- reading what stands ahead -------------------------------------------------------------

  lemma NextAhead(s: seq<byte>, st: Stream, packet: seq<byte>, rest: seq<seq<byte>>)
    requires Ahead(s, st, [packet] + rest)
    ensures NextPacket(s, st) == Ok(Read(Prefix(packet), After(st, packet)))
    ensures Ahead(s, After(st, packet), rest) && AfterAll(st, [packet] + rest) == AfterAll(After(st, packet), rest)
  {
    hide At, Physical, ParseLogical;
    assert ([packet] + rest)[0] == packet && ([packet] + rest)[1..] == rest;
    AtConcat(s, st.pos, Physical(st.sequence, packet), Wire(NextSequence(st.sequence, |packet|), rest));
    AtLength(s, st.pos, Physical(st.sequence, packet));
    LogicalIff(s, st.pos, st.sequence, packet, st.pos + |Physical(st.sequence, packet)|);
  }

  lemma {:induction false} SkipAhead(s: seq<byte>, st: Stream, packets: seq<seq<byte>>, rest: seq<seq<byte>>)
    requires Ahead(s, st, packets + rest)
    ensures Skip(s, st, |packets|) == Ok(AfterAll(st, packets))
    ensures Ahead(s, AfterAll(st, packets), rest)
    ensures AfterAll(st, packets + rest) == AfterAll(AfterAll(st, packets), rest)
    decreases |packets|
  {
    hide NextPacket, Ahead;
    if packets == [] {
      assert packets + rest == rest;
      InRange(s, st, rest);
    } else {
      assert packets + rest == [packets[0]] + (packets[1..] + rest);
      InRange(s, st, packets + rest);
      NextAhead(s, st, packets[0], packets[1..] + rest);
      SkipAhead(s, After(st, packets[0]), packets[1..], rest);
    }
  }

  lemma InRange(s: seq<byte>, st: Stream, packets: seq<seq<byte>>)
    requires Ahead(s, st, packets)
    ensures st.pos <= |s|
  {
  }

  lemma {:induction false} RowsAhead(s: seq<byte>, st: Stream, rows: seq<seq<byte>>, end: seq<byte>,
                        rest: seq<seq<byte>>, count: nat)
    requires AllRows(rows) && !IsRow(Prefix(end)) && Ahead(s, st, rows + ([end] + rest))
    ensures st.pos <= |s|
    ensures ReadRows(s, st, count) == Ok(Read((count + |rows|, Prefix(end)), AfterAll(st, rows + [end])))
    ensures Ahead(s, AfterAll(st, rows + [end]), rest)
    decreases |rows|
  {
    hide NextPacket, Ahead, IsRow, Prefix;
    InRange(s, st, rows + ([end] + rest));
    if rows == [] {
      assert rows + ([end] + rest) == [end] + rest && rows + [end] == [end] + [];
      NextAhead(s, st, end, rest);
      AfterOne(st, end);
    } else {
      assert rows + ([end] + rest) == [rows[0]] + (rows[1..] + ([end] + rest));
      assert rows + [end] == [rows[0]] + (rows[1..] + [end]);
      NextAhead(s, st, rows[0], rows[1..] + ([end] + rest));
      RowsAhead(s, After(st, rows[0]), rows[1..], end, rest, count + 1);
      AfterFirst(st, rows[0], rows[1..] + [end]);
    }
  }

  lemma AfterOne(st: Stream, packet: seq<byte>)
    ensures AfterAll(st, [packet]) == After(st, packet)
  {
  }

  lemma AfterFirst(st: Stream, packet: seq<byte>, rest: seq<seq<byte>>)
    ensures AfterAll(st, [packet] + rest) == AfterAll(After(st, packet), rest)
  {
    assert ([packet] + rest)[1..] == rest;
  }

  /** The capture keeps what classifies a packet. */
  lemma PrefixClassifies(packet: seq<byte>)
    ensures (Prefix(packet) == [] <==> packet == []) && (packet != [] ==> Prefix(packet)[0] == packet[0])
    ensures IsError(Prefix(packet)) <==> IsError(packet)
    ensures IsEOF(Prefix(packet)) <==> IsEOF(packet)
    ensures IsEOF(packet) ==> Prefix(packet) == packet
  {
  }

  /** The steps of reading a result set whose packets stand ahead. */
  lemma ResultsetSteps(s: seq<byte>, st: Stream, part: Part, rest: seq<seq<byte>>, caps: Capabilities)
    requires part.RowsPart? && PartOf(part, caps)
    requires Ahead(s, st, part.columns + (part.columnsEnd + (part.rows + ([part.end] + rest))))
    ensures st.pos <= |s|
    ensures var defined := AfterAll(st, part.columns);
            var ready := AfterAll(defined, part.columnsEnd);
            var after := AfterAll(st, part.columns + (part.columnsEnd + (part.rows + [part.end])));
            && defined.pos <= |s| && ready.pos <= |s| && after.pos <= |s| && Ahead(s, after, rest)
            && ColumnCount(Prefix(part.count)) == Some(|part.columns|)
            && Skip(s, st, |part.columns|) == Ok(defined)
            && ColumnsEnd(s, defined, caps) == Ok(ready)
            && ReadRows(s, ready, 0) == Ok(Read((|part.rows|, Prefix(part.end)), after))
  {
    hide NextPacket, Ahead, IsRow, Prefix, ColumnCount, Counts, Ends, AllRows, ReadRows, Skip, ColumnsEnd, AfterAll, IsEOF, IsError;
    var RowsPart(count, columns, columnsEnd, rows, end, status) := part;
    ColumnCountIff(Prefix(count), |columns|);
    TerminatorIff(end, caps, status);
    EndIsNoRow(end);
    InRange(s, st, columns + (columnsEnd + (rows + ([end] + rest))));
    SkipAhead(s, st, columns, columnsEnd + (rows + ([end] + rest)));
    var defined := AfterAll(st, columns);
    ColumnsEndAhead(s, defined, columnsEnd, rows + ([end] + rest), caps);
    RowsAhead(s, AfterAll(defined, columnsEnd), rows, end, rest, 0);
    AfterConcat(st, columns, columnsEnd + (rows + [end]));
    AfterConcat(defined, columnsEnd, rows + [end]);
    InRange(s, AfterAll(AfterAll(defined, columnsEnd), rows + [end]), rest);
  }

  /** A result set, up to what a More status would start. */
  lemma ResultsetAhead(s: seq<byte>, st: Stream, part: Part, rest: seq<seq<byte>>, caps: Capabilities)
    requires part.RowsPart? && PartOf(part, caps)
    requires Ahead(s, st, part.columns + (part.columnsEnd + (part.rows + ([part.end] + rest))))
    ensures st.pos <= |s|
    ensures var info, after := InfoOf(part), AfterAll(st, part.columns + (part.columnsEnd + (part.rows + [part.end])));
            && after.pos <= |s| && Ahead(s, after, rest)
            && ReadResultset(s, st, Prefix(part.count), caps)
               == if More(info.status) then ReadMore(s, after, info, caps, Query) else Ok(Read(info, after))
  {
    hide Ahead, ReadMore, TerminatorStatus, ColumnCount, Counts, Ends, AllRows, ReadRows, Skip, ColumnsEnd, AfterAll, Prefix, More;
    ResultsetSteps(s, st, part, rest, caps);
    TerminatorIff(part.end, caps, part.status);
    NoneIsFinal();
    PrefixClassifies(part.end);
    EndIsNoRow(part.end);
  }

  lemma EndIsNoRow(end: seq<byte>)
    requires IsError(end) || IsEOF(end)
    ensures !IsRow(Prefix(end))
    ensures !IsError(end) ==> Prefix(end) == end
  {
  }

  lemma ColumnsEndAhead(s: seq<byte>, st: Stream, columnsEnd: seq<seq<byte>>, rest: seq<seq<byte>>, caps: Capabilities)
    requires if caps.deprecateEOF then columnsEnd == [] else |columnsEnd| == 1 && IsEOF(columnsEnd[0])
    requires Ahead(s, st, columnsEnd + rest)
    ensures st.pos <= |s| && ColumnsEnd(s, st, caps) == Ok(AfterAll(st, columnsEnd))
    ensures Ahead(s, AfterAll(st, columnsEnd), rest)
  {
    hide NextPacket, Ahead;
    InRange(s, st, columnsEnd + rest);
    if caps.deprecateEOF {
      assert columnsEnd + rest == rest;
    } else {
      assert columnsEnd == [columnsEnd[0]];
      NextAhead(s, st, columnsEnd[0], rest);
      AfterOne(st, columnsEnd[0]);
      PrefixClassifies(columnsEnd[0]);
    }
  }

  lemma {:induction false} AfterConcat(st: Stream, a: seq<seq<byte>>, b: seq<seq<byte>>)
    ensures AfterAll(st, a + b) == AfterAll(AfterAll(st, a), b)
    decreases |a|
  {
    if a == [] {
      assert a + b == b;
    } else {
      assert (a + b)[0] == a[0] && (a + b)[1..] == a[1..] + b;
      AfterConcat(After(st, a[0]), a[1..], b);
    }
  }

  // ----- whole responses -----------------------------------------------------------------------

  lemma {:induction false} TotalFacts(parts: seq<Part>, caps: Capabilities)
    requires ResponseOf(parts, caps)
    ensures var total, last := Total(parts), InfoOf(parts[|parts| - 1]);
            && (total.rows, total.columns) == Sum(parts)
            && total.status == last.status && (total.failed <==> last.failed)
  {
    hide PartOf, InfoOf, More, ResponseOf;
    FirstOfResponse(parts, caps);
    if |parts| > 1 {
      RestIsResponse(parts, caps);
      TotalFacts(parts[1..], caps);
      MoreNeverFails(parts[0], caps);
    } else {
      SumOfOne(parts, caps);
    }
  }

  lemma SumOfOne(parts: seq<Part>, caps: Capabilities)
    requires |parts| == 1
    ensures Sum(parts) == (InfoOf(parts[0]).rows, InfoOf(parts[0]).columns)
  {
    hide InfoOf;
    assert parts[1..] == [] && Sum([]) == (0, 0);
  }

  lemma FirstOfResponse(parts: seq<Part>, caps: Capabilities)
    requires ResponseOf(parts, caps)
    ensures parts != [] && PartOf(parts[0], caps) && (|parts| > 1 ==> More(InfoOf(parts[0]).status))
  {
    hide PartOf, InfoOf, More, Announces;
    MoreIff(InfoOf(parts[0]).status);
  }

  lemma RestIsResponse(parts: seq<Part>, caps: Capabilities)
    requires ResponseOf(parts, caps) && |parts| > 1
    ensures ResponseOf(parts[1..], caps) && parts[1..][|parts| - 2] == parts[|parts| - 1]
    ensures More(InfoOf(parts[0]).status)
  {
    hide PartOf, InfoOf, More, Announces;
    MoreIff(InfoOf(parts[0]).status);
    var rest := parts[1..];
    assert forall i :: 0 <= i < |rest| ==> rest[i] == parts[i + 1];
  }

  lemma MoreNeverFails(part: Part, caps: Capabilities)
    requires PartOf(part, caps) && More(InfoOf(part).status)
    ensures !InfoOf(part).failed
  {
    hide IsOk, Counts, AllRows;
  }

  /** The packets of a response after its first. */
  function Tail(parts: seq<Part>): seq<seq<byte>>
    requires parts != []
  {
    PacketsOf(parts[0])[1..] + AllPackets(parts[1..])
  }

  lemma FirstAndTail(parts: seq<Part>)
    requires parts != []
    ensures AllPackets(parts) == [PacketsOf(parts[0])[0]] + Tail(parts)
  {
  }

  lemma {:induction false} GeneralAhead(s: seq<byte>, st: Stream, parts: seq<Part>, rest: seq<seq<byte>>,
                        caps: Capabilities, command: Command)
    requires ResponseOf(parts, caps) && command != Statistics
    requires Ahead(s, st, Tail(parts) + rest)
    ensures st.pos <= |s|
    ensures ReadGeneral(s, st, Prefix(PacketsOf(parts[0])[0]), caps, command)
         == Ok(Read(Total(parts), AfterAll(st, Tail(parts))))
    ensures Ahead(s, AfterAll(st, Tail(parts)), rest)
    decreases |parts|, 1
  {
    hide Ahead, ReadGeneral, AfterAll, Prefix, Tail, Total, PacketsOf;
    if parts[0].RowsPart? {
      RowsPartAhead(s, st, parts, rest, caps, command);
    } else {
      PlainPartAhead(s, st, parts, rest, caps, command);
    }
  }

  lemma {:induction false} PlainPartAhead(s: seq<byte>, st: Stream, parts: seq<Part>, rest: seq<seq<byte>>,
                        caps: Capabilities, command: Command)
    requires ResponseOf(parts, caps) && command != Statistics && !parts[0].RowsPart?
    requires Ahead(s, st, Tail(parts) + rest)
    ensures st.pos <= |s|
    ensures ReadGeneral(s, st, Prefix(PacketsOf(parts[0])[0]), caps, command)
         == Ok(Read(Total(parts), AfterAll(st, Tail(parts))))
    ensures Ahead(s, AfterAll(st, Tail(parts)), rest)
    decreases |parts|, 0
  {
    hide Ahead, ParseOk, IsOk, Counts, Ends, ReadResultset, ReadMore, AfterAll, Prefix, AllPackets, More;
    var others := parts[1..];
    if parts[0].OkPart? {
      ParseOkIff(Prefix(parts[0].packet), caps, parts[0].status);
    }
    NoneIsFinal();
    InRange(s, st, Tail(parts) + rest);
    PrefixClassifies(parts[0].packet);
    assert PacketsOf(parts[0])[1..] == [];
    assert Tail(parts) == AllPackets(others);
    if |parts| > 1 {
      RestIsResponse(parts, caps);
      MoreAhead(s, st, InfoOf(parts[0]), others, rest, caps, command);
    } else {
      NoPackets();
      LastIsFinal(parts, caps);
      assert Tail(parts) + rest == rest;
      AfterNothing(st);
    }
  }

  lemma {:induction false} RowsPartAhead(s: seq<byte>, st: Stream, parts: seq<Part>, rest: seq<seq<byte>>,
                        caps: Capabilities, command: Command)
    requires ResponseOf(parts, caps) && command != Statistics && parts[0].RowsPart?
    requires Ahead(s, st, Tail(parts) + rest)
    ensures st.pos <= |s|
    ensures ReadGeneral(s, st, Prefix(PacketsOf(parts[0])[0]), caps, command)
         == Ok(Read(Total(parts), AfterAll(st, Tail(parts))))
    ensures Ahead(s, AfterAll(st, Tail(parts)), rest)
    decreases |parts|, 0
  {
    hide Ahead, ParseOk, ColumnCount, ReadResultset, ReadMore, AfterAll, Prefix, AllRows, IsEOF, IsError, More, AllPackets, InfoOf, Counts, Ends, IsOk;
    var part, others := parts[0], parts[1..];
    var tail := part.columns + (part.columnsEnd + (part.rows + [part.end]));
    InRange(s, st, Tail(parts) + rest);
    PrefixClassifies(part.count);
    assert PacketsOf(part)[1..] == tail;
    assert Tail(parts) + rest
        == part.columns + (part.columnsEnd + (part.rows + ([part.end] + (AllPackets(others) + rest))));
    ResultsetAhead(s, st, part, AllPackets(others) + rest, caps);
    AfterConcat(st, tail, AllPackets(others));
    if |parts| > 1 {
      RestIsResponse(parts, caps);
      MoreAhead(s, AfterAll(st, tail), InfoOf(part), others, rest, caps, Query);
    } else {
      NoPackets();
      LastIsFinal(parts, caps);
      assert AllPackets(others) + rest == rest && tail + [] == tail;
    }
  }

  lemma NoPackets()
    ensures AllPackets([]) == []
  {
  }

  lemma AfterNothing(st: Stream)
    ensures AfterAll(st, []) == st
  {
  }

  lemma {:induction false} MoreAhead(s: seq<byte>, st: Stream, sofar: Info, parts: seq<Part>, rest: seq<seq<byte>>,
                        caps: Capabilities, command: Command)
    requires parts != [] && ResponseOf(parts, caps) && command != Statistics && More(sofar.status)
    requires Ahead(s, st, AllPackets(parts) + rest)
    ensures st.pos <= |s|
    ensures ReadMore(s, st, sofar, caps, command)
         == Ok(Read(Accumulate(sofar, Total(parts)), AfterAll(st, AllPackets(parts))))
    ensures Ahead(s, AfterAll(st, AllPackets(parts)), rest)
    decreases |parts|, 2
  {
    hide Ahead, NextPacket, ReadGeneral, AfterAll, Prefix, ResponseOf, Total, More, Tail, AllPackets;
    var first := PacketsOf(parts[0])[0];
    FirstAndTail(parts);
    assert AllPackets(parts) + rest == [first] + (Tail(parts) + rest);
    InRange(s, st, AllPackets(parts) + rest);
    NextAhead(s, st, first, Tail(parts) + rest);
    AfterFirst(st, first, Tail(parts));
    GeneralAhead(s, After(st, first), parts, rest, caps, command);
    InRange(s, AfterAll(st, AllPackets(parts)), rest);
    TotalFacts(parts, caps);
    LastIsFinal(parts, caps);
  }

  lemma LastIsFinal(parts: seq<Part>, caps: Capabilities)
    requires ResponseOf(parts, caps)
    ensures !More(InfoOf(parts[|parts| - 1]).status)
  {
    hide PartOf, InfoOf, More, Announces;
    MoreIff(InfoOf(parts[|parts| - 1]).status);
  }

  lemma NoneIsFinal()
    ensures !More(0)
  {
  }

  /**
   For every response a server can send to a general command, in either EOF mode and with any
   number of results, the reader consumes exactly its packets, leaves what follows unread, and
   returns rows and columns summed over all results with the last result's status.
   */
  lemma ResponseReadExactly(s: seq<byte>, st: Stream, parts: seq<Part>, rest: seq<seq<byte>>, caps: Capabilities,
                        command: Command)
    requires parts != [] && (command == Query || command == Other)
    ensures ResponseOf(parts, caps) && Ahead(s, st, AllPackets(parts) + rest) ==>
            var after := AfterAll(st, AllPackets(parts));
            var last := InfoOf(parts[|parts| - 1]);
            && Ahead(s, after, rest)
            && st.pos <= |s|
            && ReadResponse(s, st, caps, command)
               == Ok(Read(Info(last.failed, last.status, Sum(parts).1, Sum(parts).0, 0, 0), after))
  {
    hide Ahead, NextPacket, ReadGeneral, AfterAll, Prefix, ResponseOf, Total, More, Tail, AllPackets, Sum;
    if !ResponseOf(parts, caps) || !Ahead(s, st, AllPackets(parts) + rest) {
      return;
    }
    var first := PacketsOf(parts[0])[0];
    FirstAndTail(parts);
    assert AllPackets(parts) + rest == [first] + (Tail(parts) + rest);
    InRange(s, st, AllPackets(parts) + rest);
    NextAhead(s, st, first, Tail(parts) + rest);
    AfterFirst(st, first, Tail(parts));
    GeneralAhead(s, After(st, first), parts, rest, caps, command);
    TotalFacts(parts, caps);
    NoStatement(parts, caps);
  }

  lemma {:induction false} NoStatement(parts: seq<Part>, caps: Capabilities)
    requires parts != []
    ensures Total(parts).statementID == 0 && Total(parts).parameters == 0
  {
    if |parts| > 1 {
      NoStatement(parts[1..], caps);
    }
  }

  /** The consumed bytes are the response's own, and their payload is what is counted. */
  lemma {:induction false} AfterAllCounts(st: Stream, packets: seq<seq<byte>>)
    ensures AfterAll(st, packets).pos == st.pos + |Wire(st.sequence, packets)|
    ensures AfterAll(st, packets).size == st.size + PayloadSize(packets)
    ensures AfterAll(st, packets).truncated <==> st.truncated || exists i :: 0 <= i < |packets| && |packets[i]| > CAPTURE_LIMIT
    decreases |packets|
  {
    hide Physical;
    if packets != [] {
      AfterAllCounts(After(st, packets[0]), packets[1..]);
      assert forall i :: 1 <= i < |packets| ==> packets[i] == packets[1..][i - 1];
    }
  }

  function PayloadSize(packets: seq<seq<byte>>): nat {
    if packets == [] then 0 else |packets[0]| + PayloadSize(packets[1..])
  }

  // ----- preparing, listing and fetching -------------------------------------------------------

  /** A prepare reply: its first packet, the definitions it announces, and their terminators. */
  predicate PrepareOf(first: seq<byte>, parameters: seq<seq<byte>>, columns: seq<seq<byte>>, info: Info, caps: Capabilities) {
    && |first| >= 12 && first[0] == 0x00 && !info.failed && info.status == 0 && info.rows == 0
    && info.statementID == first[1] as nat + 256 * first[2] as nat + 0x1_0000 * first[3] as nat + 0x100_0000 * first[4] as nat
    && info.columns == first[5] as nat + 256 * first[6] as nat && info.parameters == first[7] as nat + 256 * first[8] as nat
    && |columns| == info.columns + Terminators(info.columns, caps)
    && |parameters| == info.parameters + Terminators(info.parameters, caps)
  }

  function Terminators(count: nat, caps: Capabilities): nat {
    if count > 0 && !caps.deprecateEOF then 1 else 0
  }

  lemma FourBytes(data: seq<byte>, from: nat)
    requires from + 4 <= |data|
    ensures LittleEndian(data[from..from + 4])
         == data[from] as nat + 256 * data[from + 1] as nat + 0x1_0000 * data[from + 2] as nat + 0x100_0000 * data[from + 3] as nat
  {
    LittleEndianOfThree(data[from + 1], data[from + 2], data[from + 3]);
    assert data[from..from + 4][1..] == [data[from + 1], data[from + 2], data[from + 3]];
  }

  /** The numbers in the first packet, as captured. */
  lemma PrepareNumbers(first: seq<byte>, parameters: seq<seq<byte>>, columns: seq<seq<byte>>, info: Info, caps: Capabilities)
    requires |first| >= 12
    ensures var p := Prefix(first);
            && |p| >= 12 && p[0] == first[0]
            && (PrepareOf(first, parameters, columns, info, caps) <==>
                && first[0] == 0x00
                && info == Info(false, 0, LittleEndian(p[5..7]), 0, LittleEndian(p[1..5]), LittleEndian(p[7..9]))
                && |columns| == info.columns + Terminators(info.columns, caps)
                && |parameters| == info.parameters + Terminators(info.parameters, caps))
  {
    hide LittleEndian;
    var p := Prefix(first);
    assert p[..12] == first[..12];
    assert forall i :: 0 <= i < 12 ==> p[i] == first[..12][i] == first[i];
    FourBytes(p, 1);
    TwoBytes(p, 5);
    TwoBytes(p, 7);
  }

  lemma PrepareReadExactly(s: seq<byte>, st: Stream, first: seq<byte>, parameters: seq<seq<byte>>,
                        columns: seq<seq<byte>>, info: Info, rest: seq<seq<byte>>, caps: Capabilities)
    requires PrepareOf(first, parameters, columns, info, caps)
    requires Ahead(s, st, [first] + (parameters + (columns + rest)))
    ensures var after := AfterAll(st, [first] + (parameters + columns));
            Ahead(s, after, rest) && st.pos <= |s| && ReadResponse(s, st, caps, StmtPrepare) == Ok(Read(info, after))
  {
    hide Ahead, NextPacket, AfterAll, Skip, LittleEndian, Prefix;
    PrepareNumbers(first, parameters, columns, info, caps);
    InRange(s, st, [first] + (parameters + (columns + rest)));
    NextAhead(s, st, first, parameters + (columns + rest));
    SkipAhead(s, After(st, first), parameters, columns + rest);
    var defined := AfterAll(After(st, first), parameters);
    InRange(s, defined, columns + rest);
    SkipAhead(s, defined, columns, rest);
    AfterFirst(st, first, parameters + columns);
    AfterConcat(After(st, first), parameters, columns);
  }

  /** Field lists and fetches: rows up to a terminator or an error. */
  lemma ListReadExactly(s: seq<byte>, st: Stream, rows: seq<seq<byte>>, end: seq<byte>, rest: seq<seq<byte>>,
                        caps: Capabilities, command: Command)
    requires command == FieldList || command == StmtFetch
    requires AllRows(rows) && (IsError(end) || IsEOF(end))
    requires Ahead(s, st, rows + ([end] + rest))
    ensures var after := AfterAll(st, rows + [end]);
            && Ahead(s, after, rest)
            && ReadResponse(s, st, caps, command)
               == Ok(Read(Info(IsError(end), 0, 0, if IsError(end) then 0 else |rows|, 0, 0), after))
  {
    hide Ahead, NextPacket, AfterAll, ReadRows, IsRow, Prefix;
    EndIsNoRow(end);
    PrefixClassifies(end);
    RowsAhead(s, st, rows, end, rest, 0);
  }

  // ----- which terminators are recognised ------------------------------------------------------

  /**
   After any rows, a packet that starts like a terminator ends the result set exactly when it has
   fewer than nine bytes; a longer one is counted as a row and reading goes on behind it.
   */
  lemma TerminatorRecognisedIff(s: seq<byte>, st: Stream, rows: seq<seq<byte>>, end: seq<byte>, rest: seq<seq<byte>>)
    requires AllRows(rows) && end != [] && end[0] == 0xfe
    requires Ahead(s, st, rows + ([end] + rest))
    ensures var after := AfterAll(st, rows + [end]);
            st.pos <= |s| && after.pos <= |s| &&
            if |end| < 9 then ReadRows(s, st, 0) == Ok(Read((|rows|, end), after))
            else ReadRows(s, st, 0) == ReadRows(s, after, |rows| + 1)
  {
    hide Ahead, NextPacket, AfterAll, ReadRows, AllRows;
    InRange(s, st, rows + ([end] + rest));
    if |end| < 9 {
      PrefixClassifies(end);
      RowsAhead(s, st, rows, end, rest, 0);
      InRange(s, AfterAll(st, rows + [end]), rest);
    } else {
      PrefixClassifies(end);
      assert rows + ([end] + rest) == (rows + [end]) + rest;
      AllRowsSnoc(rows, end);
      RowsOnly(s, st, rows + [end], rest, 0);
    }
  }

  lemma AllRowsSnoc(rows: seq<seq<byte>>, row: seq<byte>)
    requires AllRows(rows) && IsRow(Prefix(row))
    ensures AllRows(rows + [row])
  {
  }

  lemma {:induction false} RowsOnly(s: seq<byte>, st: Stream, rows: seq<seq<byte>>, rest: seq<seq<byte>>, count: nat)
    requires AllRows(rows) && Ahead(s, st, rows + rest)
    ensures st.pos <= |s| && AfterAll(st, rows).pos <= |s|
    ensures ReadRows(s, st, count) == ReadRows(s, AfterAll(st, rows), count + |rows|)
    decreases |rows|
  {
    hide NextPacket, Ahead, IsRow, Prefix;
    InRange(s, st, rows + rest);
    if rows != [] {
      assert rows + rest == [rows[0]] + (rows[1..] + rest);
      NextAhead(s, st, rows[0], rows[1..] + rest);
      RowsOnly(s, After(st, rows[0]), rows[1..], rest, count + 1);
    }
  }

  /** The smallest terminator that is missed: an OK terminator that carries two bytes of text. */
  lemma LongTerminatorMissed(st: Stream)
    ensures var end: seq<byte> := [0xfe, 0, 0, 2, 0, 0, 0, 1, 0x21];
            var caps := Capabilities(true, true, true);
            ParseOk(end, caps) == Some(2) && !IsEOF(end) && IsRow(end)
  {
    var end: seq<byte> := [0xfe, 0, 0, 2, 0, 0, 0, 1, 0x21];
    assert ReadLenenc(end, 1) == Ok(MysqlPacket.Parsed(Some(0), 2));
    assert ReadLenenc(end, 2) == Ok(MysqlPacket.Parsed(Some(0), 3));
    assert end[3..5] == [2, 0];
    assert LittleEndian([2, 0]) == 2 by {
      assert [2, 0][1..] == [0] && [0][1..] == [];
      assert LittleEndian([0]) == 0;
    }
  }
}

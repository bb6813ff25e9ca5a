/** Which byte streams the MySQL response reader accepts: exactly those where the packets of a response stand. */
module MysqlAccepts {
  import opened Wrappers
  import opened Bytes
  import opened Streams
  import opened MysqlPacket
  import opened MysqlReplies
  import opened MysqlResponse

  // ----- what was read stands there ------------------------------------------------------------

  lemma NextStands(s: seq<byte>, st: Stream) returns (packet: seq<byte>)
    requires st.pos <= |s| && NextPacket(s, st).Ok?
    ensures NextPacket(s, st) == Ok(Read(Prefix(packet), After(st, packet)))
    ensures Ahead(s, st, [packet])
  {
    hide At, Physical, ParseLogical;
    var p := ParseLogical(s, st.pos, st.sequence).value;
    packet := p.result;
    LogicalIff(s, st.pos, st.sequence, packet, p.next);
    OnePacket(st.sequence, packet);
  }

  lemma OnePacket(sequence: byte, packet: seq<byte>)
    ensures Wire(sequence, [packet]) == Physical(sequence, packet)
  {
    hide Physical;
    assert [packet][1..] == [];
  }

  lemma {:induction false} WireConcat(st: Stream, a: seq<seq<byte>>, b: seq<seq<byte>>)
    ensures Wire(st.sequence, a + b) == Wire(st.sequence, a) + Wire(AfterAll(st, a).sequence, b)
    decreases |a|
  {
    hide Physical;
    if a == [] {
      assert a + b == b;
    } else {
      assert (a + b)[0] == a[0] && (a + b)[1..] == a[1..] + b;
      WireConcat(After(st, a[0]), a[1..], b);
    }
  }

  lemma AheadJoin(s: seq<byte>, st: Stream, a: seq<seq<byte>>, b: seq<seq<byte>>)
    requires Ahead(s, st, a) && Ahead(s, AfterAll(st, a), b)
    ensures Ahead(s, st, a + b) && AfterAll(st, a + b) == AfterAll(AfterAll(st, a), b)
  {
    hide At, Wire, AfterAll;
    WireConcat(st, a, b);
    AfterConcat(st, a, b);
    AfterAllCounts(st, a);
    AtConcat(s, st.pos, Wire(st.sequence, a), Wire(AfterAll(st, a).sequence, b));
  }

  lemma AheadFirst(s: seq<byte>, st: Stream, packet: seq<byte>, rest: seq<seq<byte>>)
    requires Ahead(s, st, [packet]) && Ahead(s, After(st, packet), rest)
    ensures Ahead(s, st, [packet] + rest) && AfterAll(st, [packet] + rest) == AfterAll(After(st, packet), rest)
  {
    hide Ahead, AfterAll;
    AfterOne(st, packet);
    AheadJoin(s, st, [packet], rest);
  }

  lemma NothingAhead(s: seq<byte>, st: Stream)
    requires st.pos <= |s|
    ensures Ahead(s, st, []) && AfterAll(st, []) == st
  {
  }

  lemma {:induction false} SkipStands(s: seq<byte>, st: Stream, count: nat) returns (packets: seq<seq<byte>>)
    requires st.pos <= |s| && Skip(s, st, count).Ok?
    ensures |packets| == count && Ahead(s, st, packets) && Skip(s, st, count) == Ok(AfterAll(st, packets))
    decreases count
  {
    hide NextPacket, Ahead, AfterAll;
    if count == 0 {
      packets := [];
      NothingAhead(s, st);
    } else {
      var packet := NextStands(s, st);
      var rest := SkipStands(s, After(st, packet), count - 1);
      packets := [packet] + rest;
      AheadFirst(s, st, packet, rest);
    }
  }

  lemma {:induction false} RowsStand(s: seq<byte>, st: Stream, count: nat) returns (rows: seq<seq<byte>>, end: seq<byte>)
    requires st.pos <= |s| && ReadRows(s, st, count).Ok?
    ensures AllRows(rows) && !IsRow(Prefix(end)) && Ahead(s, st, rows + [end])
    ensures ReadRows(s, st, count) == Ok(Read((count + |rows|, Prefix(end)), AfterAll(st, rows + [end])))
    decreases |s| - st.pos
  {
    hide NextPacket, Ahead, AfterAll, IsRow, Prefix;
    var packet := NextStands(s, st);
    if IsRow(Prefix(packet)) {
      var more;
      more, end := RowsStand(s, After(st, packet), count + 1);
      rows := [packet] + more;
      assert rows + [end] == [packet] + (more + [end]);
      AheadFirst(s, st, packet, more + [end]);
    } else {
      rows, end := [], packet;
      assert rows + [end] == [end];
      AfterOne(st, end);
    }
  }

  lemma ColumnsEndStands(s: seq<byte>, st: Stream, caps: Capabilities) returns (columnsEnd: seq<seq<byte>>)
    requires st.pos <= |s| && ColumnsEnd(s, st, caps).Ok?
    ensures if caps.deprecateEOF then columnsEnd == [] else |columnsEnd| == 1 && IsEOF(columnsEnd[0])
    ensures Ahead(s, st, columnsEnd) && ColumnsEnd(s, st, caps) == Ok(AfterAll(st, columnsEnd))
  {
    hide NextPacket, Ahead, AfterAll, IsEOF, Prefix;
    if caps.deprecateEOF {
      columnsEnd := [];
      NothingAhead(s, st);
    } else {
      var packet := NextStands(s, st);
      PrefixClassifies(packet);
      columnsEnd := [packet];
      AfterOne(st, packet);
    }
  }

  // ----- one result set ------------------------------------------------------------------------

  predicate StartsRows(first: seq<byte>) {
    first != [] && first[0] != 0x00 && first[0] != 0xff && first[0] != 0xfb
  }

  lemma ResultsetStands(s: seq<byte>, st: Stream, first: seq<byte>, caps: Capabilities) returns (part: Part)
    requires st.pos <= |s| && StartsRows(first) && ReadResultset(s, st, Prefix(first), caps).Ok?
    ensures part.RowsPart? && part.count == first && PartOf(part, caps) && Ahead(s, st, PacketsOf(part)[1..])
  {
    hide Ahead, ReadMore, ColumnCount, AllRows, ReadRows, Skip, ColumnsEnd, AfterAll, IsEOF, IsError, Prefix, TerminatorStatus, More, Counts, Ends;
    ColumnCountIff(Prefix(first), ColumnCount(Prefix(first)).value);
    var columns := SkipStands(s, st, ColumnCount(Prefix(first)).value);
    var defined := AfterAll(st, columns);
    var columnsEnd := ColumnsEndStands(s, defined, caps);
    var ready := AfterAll(defined, columnsEnd);
    var rows, end := RowsStand(s, ready, 0);
    NoRowIsEnd(end);
    var status := if IsError(end) then 0 else TerminatorStatus(end, caps);
    part := RowsPart(first, columns, columnsEnd, rows, end, status);
    TerminatorIff(end, caps, status);
    AheadJoin(s, defined, columnsEnd, rows + [end]);
    AheadJoin(s, st, columns, columnsEnd + (rows + [end]));
    assert PacketsOf(part)[1..] == columns + (columnsEnd + (rows + [end]));
  }

  lemma NoRowIsEnd(end: seq<byte>)
    requires !IsRow(Prefix(end))
    ensures IsError(end) || IsEOF(end)
  {
    PrefixClassifies(end);
  }

  // ----- chains --------------------------------------------------------------------------------

  lemma OnePart(part: Part, caps: Capabilities)
    requires PartOf(part, caps) && !More(InfoOf(part).status)
    ensures ResponseOf([part], caps) && Tail([part]) == PacketsOf(part)[1..] && Total([part]) == InfoOf(part)
  {
    hide PartOf, More, Announces, InfoOf;
    MoreIff(InfoOf(part).status);
    assert [part][1..] == [] && AllPackets([]) == [];
    assert PacketsOf(part)[1..] + [] == PacketsOf(part)[1..];
  }

  lemma PrependPart(part: Part, rest: seq<Part>, caps: Capabilities)
    requires PartOf(part, caps) && More(InfoOf(part).status) && ResponseOf(rest, caps)
    ensures var parts := [part] + rest;
            && ResponseOf(parts, caps) && Tail(parts) == PacketsOf(part)[1..] + AllPackets(rest)
            && Total(parts) == Accumulate(InfoOf(part), Total(rest))
  {
    hide PartOf, More, Announces, InfoOf, PacketsOf, AllPackets;
    MoreIff(InfoOf(part).status);
    var parts := [part] + rest;
    assert parts[1..] == rest && parts[0] == part;
    assert forall i :: 1 <= i < |parts| ==> parts[i] == rest[i - 1];
  }

  /** The rest of a response whose first packet has been read. */
  ghost predicate Continues(s: seq<byte>, st: Stream, parts: seq<Part>, caps: Capabilities, r: Result<Read<Info>, Problem>) {
    && ResponseOf(parts, caps) && Ahead(s, st, Tail(parts))
    && r == Ok(Read(Total(parts), AfterAll(st, Tail(parts))))
  }

  lemma {:induction false} GeneralStands(s: seq<byte>, st: Stream, first: seq<byte>, caps: Capabilities, command: Command)
    returns (parts: seq<Part>)
    requires st.pos <= |s| && command != Statistics && ReadGeneral(s, st, Prefix(first), caps, command).Ok?
    ensures parts != [] && PacketsOf(parts[0])[0] == first
    ensures Continues(s, st, parts, caps, ReadGeneral(s, st, Prefix(first), caps, command))
    decreases |s| - st.pos, 2
  {
    hide Ahead, ParseOk, ReadResultset, ReadMore, AfterAll, Prefix, Continues;
    PrefixClassifies(first);
    if first[0] == 0xff || first[0] == 0x00 {
      parts := PlainStands(s, st, first, caps, command);
    } else {
      parts := RowsPartStands(s, st, first, caps, command);
    }
  }

  lemma {:induction false} PlainStands(s: seq<byte>, st: Stream, first: seq<byte>, caps: Capabilities, command: Command)
    returns (parts: seq<Part>)
    requires st.pos <= |s| && command != Statistics && ReadGeneral(s, st, Prefix(first), caps, command).Ok?
    requires first != [] && (first[0] == 0xff || first[0] == 0x00)
    ensures parts != [] && PacketsOf(parts[0])[0] == first
    ensures Continues(s, st, parts, caps, ReadGeneral(s, st, Prefix(first), caps, command))
    decreases |s| - st.pos, 1
  {
    hide Ahead, ParseOk, IsOk, ReadResultset, ReadMore, AfterAll, Prefix, More, ResponseOf, Total, AllPackets, Tail;
    PrefixClassifies(first);
    NothingAhead(s, st);
    var part := if first[0] == 0xff then ErrorPart(first) else OkPart(first, ParseOk(Prefix(first), caps).value);
    if part.OkPart? {
      ParseOkIff(Prefix(first), caps, part.status);
    }
    assert PacketsOf(part)[1..] == [];
    NoneIsFinal();
    if More(InfoOf(part).status) {
      var rest := MoreStands(s, st, InfoOf(part), caps, command);
      parts := [part] + rest;
      PrependPart(part, rest, caps);
      assert [] + AllPackets(rest) == AllPackets(rest);
    } else {
      parts := [part];
      OnePart(part, caps);
    }
  }

  lemma {:induction false} RowsPartStands(s: seq<byte>, st: Stream, first: seq<byte>, caps: Capabilities, command: Command)
    returns (parts: seq<Part>)
    requires st.pos <= |s| && command != Statistics && ReadGeneral(s, st, Prefix(first), caps, command).Ok?
    requires first != [] && first[0] != 0xff && first[0] != 0x00
    ensures parts != [] && PacketsOf(parts[0])[0] == first
    ensures Continues(s, st, parts, caps, ReadGeneral(s, st, Prefix(first), caps, command))
    decreases |s| - st.pos, 1
  {
    hide Ahead, ParseOk, ReadResultset, ReadMore, AfterAll, Prefix, More, ResponseOf, Total, AllPackets, Tail, InfoOf, PartOf;
    PrefixClassifies(first);
    var part := ResultsetStands(s, st, first, caps);
    var tail := PacketsOf(part)[1..];
    assert tail == part.columns + (part.columnsEnd + (part.rows + [part.end]));
    assert part.columns + (part.columnsEnd + (part.rows + ([part.end] + []))) == tail;
    ResultsetAhead(s, st, part, [], caps);
    var info, after := InfoOf(part), AfterAll(st, tail);
    AfterAllCounts(st, tail);
    if More(info.status) {
      var rest := MoreStands(s, after, info, caps, Query);
      parts := [part] + rest;
      PrependPart(part, rest, caps);
      AheadJoin(s, st, tail, AllPackets(rest));
    } else {
      parts := [part];
      OnePart(part, caps);
    }
  }

  lemma {:induction false} MoreStands(s: seq<byte>, st: Stream, sofar: Info, caps: Capabilities, command: Command)
    returns (parts: seq<Part>)
    requires st.pos <= |s| && command != Statistics && More(sofar.status) && ReadMore(s, st, sofar, caps, command).Ok?
    ensures ResponseOf(parts, caps) && Ahead(s, st, AllPackets(parts))
    ensures ReadMore(s, st, sofar, caps, command)
         == Ok(Read(Accumulate(sofar, Total(parts)), AfterAll(st, AllPackets(parts))))
    decreases |s| - st.pos, 0
  {
    hide Ahead, NextPacket, ReadGeneral, AfterAll, Prefix, More, ResponseOf, Total, Tail, AllPackets, PacketsOf;
    var first := NextStands(s, st);
    parts := GeneralStands(s, After(st, first), first, caps, command);
    FirstAndTail(parts);
    AheadFirst(s, st, first, Tail(parts));
    TotalFacts(parts, caps);
    LastIsFinal(parts, caps);
  }

  // ----- the theorem ---------------------------------------------------------------------------

  /** A response stands at `st`: its packets, from the expected sequence on, up to `after`. */
  ghost predicate ResponseStands(s: seq<byte>, st: Stream, parts: seq<Part>, caps: Capabilities, info: Info, after: Stream) {
    && ResponseOf(parts, caps) && Ahead(s, st, AllPackets(parts))
    && info == Total(parts) && after == AfterAll(st, AllPackets(parts))
  }

  /**
   For any bytes: the reader accepts, up to `after` and with `info`, exactly when the packets of some chain of results
   stand there, `info` is their total, and `after` is right behind the last of them.
   */
  lemma ResponseAcceptedIff(s: seq<byte>, st: Stream, caps: Capabilities, command: Command, info: Info, after: Stream)
    requires st.pos <= |s| && (command == Query || command == Other)
    ensures ReadResponse(s, st, caps, command) == Ok(Read(info, after))
       <==> exists parts :: ResponseStands(s, st, parts, caps, info, after)
  {
    hide Ahead, NextPacket, ReadGeneral, AfterAll, Prefix, ResponseOf, Total, More, Tail, AllPackets, PacketsOf;
    if ReadResponse(s, st, caps, command) == Ok(Read(info, after)) {
      var first := NextStands(s, st);
      var parts := GeneralStands(s, After(st, first), first, caps, command);
      FirstAndTail(parts);
      AheadFirst(s, st, first, Tail(parts));
      assert ResponseStands(s, st, parts, caps, info, after);
    }
    forall parts | ResponseStands(s, st, parts, caps, info, after)
      ensures ReadResponse(s, st, caps, command) == Ok(Read(info, after))
    {
      StandingIsRead(s, st, parts, caps, command);
    }
  }

  lemma StandingIsRead(s: seq<byte>, st: Stream, parts: seq<Part>, caps: Capabilities, command: Command)
    requires ResponseOf(parts, caps) && Ahead(s, st, AllPackets(parts)) && (command == Query || command == Other)
    ensures st.pos <= |s|
    ensures ReadResponse(s, st, caps, command) == Ok(Read(Total(parts), AfterAll(st, AllPackets(parts))))
  {
    hide Ahead, NextPacket, ReadGeneral, AfterAll, Prefix, ResponseOf, Total, More, Tail, AllPackets, PacketsOf;
    NotEmpty(parts, caps);
    var first := PacketsOf(parts[0])[0];
    FirstAndTail(parts);
    assert AllPackets(parts) == [first] + (Tail(parts) + []);
    InRange(s, st, AllPackets(parts));
    NextAhead(s, st, first, Tail(parts) + []);
    AfterFirst(st, first, Tail(parts));
    GeneralAhead(s, After(st, first), parts, [], caps, command);
  }

  lemma NotEmpty(parts: seq<Part>, caps: Capabilities)
    requires ResponseOf(parts, caps)
    ensures parts != []
  {
  }

  // ----- preparing, listing and fetching -------------------------------------------------------

  /** A prepare reply, or an error in its place. */
  ghost predicate PrepareStands(s: seq<byte>, st: Stream, first: seq<byte>, parameters: seq<seq<byte>>,
                                columns: seq<seq<byte>>, caps: Capabilities, info: Info, after: Stream) {
    && Ahead(s, st, [first] + (parameters + columns)) && after == AfterAll(st, [first] + (parameters + columns))
    && (|| PrepareOf(first, parameters, columns, info, caps)
        || (IsError(first) && parameters == [] && columns == [] && info == Info(true, 0, 0, 0, 0, 0)))
  }

  lemma PrepareStood(s: seq<byte>, st: Stream, caps: Capabilities, info: Info, after: Stream)
    requires st.pos <= |s| && ReadPrepare(s, st, caps) == Ok(Read(info, after))
    ensures exists first, parameters, columns :: PrepareStands(s, st, first, parameters, columns, caps, info, after)
  {
    hide Ahead, NextPacket, AfterAll, Skip, Prefix, LittleEndian;
    var first := NextStands(s, st);
    PrefixClassifies(first);
    var start := After(st, first);
    if first[0] == 0xff {
      AfterOne(st, first);
      assert [first] + ([] + []) == [first];
      assert PrepareStands(s, st, first, [], [], caps, info, after);
    } else {
      PrefixLong(first);
      var parameters := SkipStands(s, start, info.parameters + Terminators(info.parameters, caps));
      var defined := AfterAll(start, parameters);
      var columns := SkipStands(s, defined, info.columns + Terminators(info.columns, caps));
      PrepareNumbers(first, parameters, columns, info, caps);
      AheadJoin(s, start, parameters, columns);
      AheadFirst(s, st, first, parameters + columns);
      assert PrepareStands(s, st, first, parameters, columns, caps, info, after);
    }
  }

  lemma PrefixLong(packet: seq<byte>)
    requires |Prefix(packet)| >= 12
    ensures |packet| >= 12
  {
  }

  lemma PrepareIsRead(s: seq<byte>, st: Stream, first: seq<byte>, parameters: seq<seq<byte>>, columns: seq<seq<byte>>,
                      caps: Capabilities, info: Info, after: Stream)
    requires PrepareStands(s, st, first, parameters, columns, caps, info, after)
    ensures st.pos <= |s| && ReadPrepare(s, st, caps) == Ok(Read(info, after))
  {
    hide Ahead, NextPacket, AfterAll, Prefix, PrepareOf, Skip, LittleEndian;
    assert [first] + (parameters + columns) == [first] + (parameters + (columns + []));
    InRange(s, st, [first] + (parameters + columns));
    if PrepareOf(first, parameters, columns, info, caps) {
      PrepareReadExactly(s, st, first, parameters, columns, info, [], caps);
    } else {
      NextAhead(s, st, first, []);
      AfterOne(st, first);
      assert [first] + ([] + []) == [first] + [] == [first];
      PrefixClassifies(first);
    }
  }

  /** For any bytes: the reply to a PREPARE is accepted exactly when its packets, or an error, stand there. */
  lemma PrepareAcceptedIff(s: seq<byte>, st: Stream, caps: Capabilities, info: Info, after: Stream)
    requires st.pos <= |s|
    ensures ReadResponse(s, st, caps, StmtPrepare) == Ok(Read(info, after))
       <==> exists first, parameters, columns :: PrepareStands(s, st, first, parameters, columns, caps, info, after)
  {
    hide PrepareStands, ReadPrepare;
    if ReadResponse(s, st, caps, StmtPrepare) == Ok(Read(info, after)) {
      PrepareStood(s, st, caps, info, after);
    }
    forall first, parameters, columns | PrepareStands(s, st, first, parameters, columns, caps, info, after)
      ensures ReadResponse(s, st, caps, StmtPrepare) == Ok(Read(info, after))
    {
      PrepareIsRead(s, st, first, parameters, columns, caps, info, after);
    }
  }

  /** Rows, and the error or terminator behind them; an error hides how many there were. */
  ghost predicate ListStands(s: seq<byte>, st: Stream, rows: seq<seq<byte>>, end: seq<byte>, info: Info, after: Stream) {
    && AllRows(rows) && (IsError(end) || IsEOF(end)) && Ahead(s, st, rows + [end]) && after == AfterAll(st, rows + [end])
    && info == Info(IsError(end), 0, 0, if IsError(end) then 0 else |rows|, 0, 0)
  }

  lemma ListAcceptedIff(s: seq<byte>, st: Stream, caps: Capabilities, command: Command, info: Info, after: Stream)
    requires st.pos <= |s| && (command == FieldList || command == StmtFetch)
    ensures ReadResponse(s, st, caps, command) == Ok(Read(info, after))
       <==> exists rows, end :: ListStands(s, st, rows, end, info, after)
  {
    hide Ahead, NextPacket, AfterAll, ReadRows, IsRow, Prefix, AllRows;
    if ReadResponse(s, st, caps, command) == Ok(Read(info, after)) {
      var rows, end := RowsStand(s, st, 0);
      NoRowIsEnd(end);
      PrefixClassifies(end);
      assert ListStands(s, st, rows, end, info, after);
    }
    forall rows, end | ListStands(s, st, rows, end, info, after)
      ensures ReadResponse(s, st, caps, command) == Ok(Read(info, after))
    {
      assert rows + [end] == rows + ([end] + []);
      ListReadExactly(s, st, rows, end, [], caps, command);
    }
  }

  /** The reply to STATISTICS is one packet of text. */
  lemma StatisticsReadExactly(s: seq<byte>, st: Stream, text: seq<byte>, rest: seq<seq<byte>>, caps: Capabilities)
    requires StartsRows(text) && Ahead(s, st, [text] + rest)
    ensures st.pos <= |s|
    ensures ReadResponse(s, st, caps, Statistics) == Ok(Read(Info(false, 0, 0, 0, 0, 0), After(st, text)))
  {
    hide Ahead, NextPacket, Prefix, ReadResultset;
    InRange(s, st, [text] + rest);
    NextAhead(s, st, text, rest);
    PrefixClassifies(text);
  }

  // ----- one result, and whether another follows -----------------------------------------------

  lemma MoreAdvances(s: seq<byte>, st: Stream, sofar: Info, caps: Capabilities, command: Command)
    requires st.pos <= |s| && More(sofar.status) && ReadMore(s, st, sofar, caps, command).Ok?
    ensures ReadMore(s, st, sofar, caps, command).value.stream.pos > st.pos
  {
    hide NextPacket, ReadGeneral, More;
  }

  /** Behind one result the reader stops exactly when its status does not announce another. */
  lemma PartStopsIff(s: seq<byte>, st: Stream, part: Part, rest: seq<seq<byte>>, caps: Capabilities, command: Command)
    requires PartOf(part, caps) && (command == Query || command == Other)
    requires Ahead(s, st, PacketsOf(part) + rest)
    ensures st.pos <= |s|
    ensures var r, after := ReadResponse(s, st, caps, command), AfterAll(st, PacketsOf(part));
            if Announces(InfoOf(part).status) then r.Ok? ==> r.value.stream.pos > after.pos
            else r == Ok(Read(InfoOf(part), after))
  {
    hide Ahead, NextPacket, AfterAll, ReadResultset, ReadMore, More, Prefix, PartOf, IsOk, ParseOk, Announces;
    var first, tail := PacketsOf(part)[0], PacketsOf(part)[1..];
    assert PacketsOf(part) == [first] + tail && PacketsOf(part) + rest == [first] + (tail + rest);
    InRange(s, st, PacketsOf(part) + rest);
    NextAhead(s, st, first, tail + rest);
    AfterFirst(st, first, tail);
    MoreIff(InfoOf(part).status);
    NoneIsFinal();
    var start := After(st, first);
    OneGeneral(s, start, part, rest, caps, command);
    var after := AfterAll(start, tail);
    InRange(s, after, rest);
    if More(InfoOf(part).status) && ReadResponse(s, st, caps, command).Ok? {
      MoreAdvances(s, after, InfoOf(part), caps, if part.RowsPart? then Query else command);
    }
  }

  lemma OneGeneral(s: seq<byte>, st: Stream, part: Part, rest: seq<seq<byte>>, caps: Capabilities, command: Command)
    requires PartOf(part, caps) && (command == Query || command == Other)
    requires Ahead(s, st, PacketsOf(part)[1..] + rest)
    ensures var after, info := AfterAll(st, PacketsOf(part)[1..]), InfoOf(part);
            && st.pos <= |s| && after.pos <= |s| && Ahead(s, after, rest)
            && ReadGeneral(s, st, Prefix(PacketsOf(part)[0]), caps, command)
               == if More(info.status) then ReadMore(s, after, info, caps, if part.RowsPart? then Query else command)
                  else Ok(Read(info, after))
  {
    hide Ahead, NextPacket, AfterAll, ReadResultset, ReadMore, More, Prefix, IsOk, ParseOk, Counts, Ends, AllRows;
    var first := PacketsOf(part)[0];
    PrefixClassifies(first);
    NoneIsFinal();
    InRange(s, st, PacketsOf(part)[1..] + rest);
    if part.RowsPart? {
      assert PacketsOf(part)[1..] == part.columns + (part.columnsEnd + (part.rows + [part.end]));
      assert PacketsOf(part)[1..] + rest == part.columns + (part.columnsEnd + (part.rows + ([part.end] + rest)));
      ResultsetAhead(s, st, part, rest, caps);
    } else {
      assert PacketsOf(part)[1..] == [] && [] + rest == rest;
      AfterNothing(st);
      if part.OkPart? {
        ParseOkIff(Prefix(first), caps, part.status);
      }
    }
  }

  lemma PrefixOfOk(affected: nat, lastID: nat, status: nat, warnings: nat, text: seq<byte>) returns (kept: seq<byte>)
    requires affected < Pow256(8) && lastID < Pow256(8)
    ensures Prefix(OkPacket(affected, lastID, status, warnings, text)) == OkPacket(affected, lastID, status, warnings, kept)
  {
    hide Lenenc;
    var packet := OkPacket(affected, lastID, status, warnings, text);
    var front := OkPacket(affected, lastID, status, warnings, []);
    LenencIsShort(affected);
    LenencIsShort(lastID);
    assert packet == front + text;
    kept := if |packet| <= CAPTURE_LIMIT then text else text[..CAPTURE_LIMIT - |front|];
    assert Prefix(packet) == front + kept;
  }

  lemma LenencIsShort(value: nat)
    requires value < Pow256(8)
    ensures |Lenenc(value)| <= 9
  {
  }

  /** The reply to an update: the reader reports its status, and stops behind it exactly when bit 3 of the status is clear. */
  lemma OkStopsIff(s: seq<byte>, st: Stream, affected: nat, lastID: nat, status: nat, warnings: nat, text: seq<byte>,
                   rest: seq<seq<byte>>, caps: Capabilities, command: Command)
    requires affected < Pow256(8) && lastID < Pow256(8) && status < 0x1_0000 && (caps.protocol41 || caps.transactions)
    requires command == Query || command == Other
    requires Ahead(s, st, [OkPacket(affected, lastID, status, warnings, text)] + rest)
    ensures st.pos <= |s|
    ensures var r, after := ReadResponse(s, st, caps, command), After(st, OkPacket(affected, lastID, status, warnings, text));
            if status % 16 >= 8 then r.Ok? ==> r.value.stream.pos > after.pos
            else r == Ok(Read(Info(false, status, 0, 0, 0, 0), after))
  {
    hide Ahead, ReadResponse, IsOk, Lenenc, Prefix;
    var packet := OkPacket(affected, lastID, status, warnings, text);
    var kept := PrefixOfOk(affected, lastID, status, warnings, text);
    BuiltOk(affected, lastID, status, warnings, kept, caps);
    AfterOne(st, packet);
    PartStopsIff(s, st, OkPart(packet, status), rest, caps, command);
  }

  /** The same for a result set whose rows end in an EOF packet. */
  lemma ResultsetStopsIff(s: seq<byte>, st: Stream, count: seq<byte>, columns: seq<seq<byte>>, columnsEnd: seq<byte>,
                          rows: seq<seq<byte>>, warnings: nat, status: nat, rest: seq<seq<byte>>, caps: Capabilities,
                          command: Command)
    requires StartsRows(count) && Counts(Prefix(count), |columns|) && IsEOF(columnsEnd) && AllRows(rows)
    requires status < 0x1_0000 && !caps.deprecateEOF && (command == Query || command == Other)
    requires Ahead(s, st, [count] + (columns + ([columnsEnd] + (rows + [EofPacket(warnings, status)]))) + rest)
    ensures st.pos <= |s|
    ensures var r := ReadResponse(s, st, caps, command);
            var after := AfterAll(st, [count] + (columns + ([columnsEnd] + (rows + [EofPacket(warnings, status)]))));
            if status % 16 >= 8 then r.Ok? ==> r.value.stream.pos > after.pos
            else r == Ok(Read(Info(false, status, |columns|, |rows|, 0, 0), after))
  {
    hide Ahead, ReadResponse, Counts, Ends, AllRows, AfterAll, Prefix;
    BuiltEof(warnings, status, caps);
    PartStopsIff(s, st, RowsPart(count, columns, [columnsEnd], rows, EofPacket(warnings, status), status), rest, caps, command);
  }

  // ----- replies that open a cursor ------------------------------------------------------------

  /** An EXECUTE opened as a cursor is answered by column definitions and their terminator, without rows. */
  ghost predicate CursorReply(count: seq<byte>, columns: seq<seq<byte>>, end: seq<byte>, status: nat,
                            caps: Capabilities) {
    StartsRows(count) && Counts(Prefix(count), |columns|) && Ends(end, caps, status) && !Announces(status)
  }

  lemma RowsAdvance(s: seq<byte>, st: Stream, count: nat)
    requires st.pos <= |s| && ReadRows(s, st, count).Ok?
    ensures ReadRows(s, st, count).value.stream.pos > st.pos
  {
    hide NextPacket, IsRow;
  }

  lemma CursorRunsOn(s: seq<byte>, st: Stream, count: seq<byte>, columns: seq<seq<byte>>, end: seq<byte>, status: nat,
                     rest: seq<seq<byte>>, caps: Capabilities)
    requires CursorReply(count, columns, end, status, caps) && !caps.deprecateEOF
    requires Ahead(s, st, columns + ([end] + rest))
    ensures st.pos <= |s|
    ensures var r, after := ReadResultset(s, st, Prefix(count), caps), AfterAll(st, columns + [end]);
            after.pos <= |s| && (r.Ok? ==> r.value.stream.pos > after.pos)
  {
    hide Ahead, NextPacket, AfterAll, ReadRows, ReadMore, Skip, ColumnsEnd, ColumnCount, Counts, IsEOF, IsOk, More, Prefix;
    ColumnCountIff(Prefix(count), |columns|);
    InRange(s, st, columns + ([end] + rest));
    SkipAhead(s, st, columns, [end] + rest);
    ColumnsEndAhead(s, AfterAll(st, columns), [end], rest, caps);
    AfterConcat(st, columns, [end]);
    var after := AfterAll(st, columns + [end]);
    InRange(s, after, rest);
    if ReadRows(s, after, 0).Ok? {
      RowsAdvance(s, after, 0);
    }
  }

  /**
   The reader stops behind the reply that opens a cursor exactly when the connection does without EOF packets. With
   them it takes the terminator for the end of the definitions and reads on, and fails if nothing follows.
   */
  lemma CursorReplyReadIff(s: seq<byte>, st: Stream, count: seq<byte>, columns: seq<seq<byte>>, end: seq<byte>, status: nat,
                           rest: seq<seq<byte>>, caps: Capabilities, command: Command)
    requires CursorReply(count, columns, end, status, caps) && (command == Query || command == Other)
    requires Ahead(s, st, [count] + (columns + ([end] + rest)))
    ensures st.pos <= |s|
    ensures var r, after := ReadResponse(s, st, caps, command), AfterAll(st, [count] + (columns + [end]));
            && (caps.deprecateEOF <==> r.Ok? && r.value.stream == after)
            && (caps.deprecateEOF ==> r == Ok(Read(Info(false, status, |columns|, 0, 0, 0), after)))
            && (r.Ok? && !caps.deprecateEOF ==> r.value.stream.pos > after.pos)
            && (!caps.deprecateEOF && after.pos == |s| ==> r.Err?)
  {
    hide Ahead, NextPacket, AfterAll, ReadResultset, Counts, Ends, More, Prefix;
    InRange(s, st, [count] + (columns + ([end] + rest)));
    NextAhead(s, st, count, columns + ([end] + rest));
    AfterFirst(st, count, columns + [end]);
    PrefixClassifies(count);
    if caps.deprecateEOF {
      CursorPart(s, st, count, columns, end, status, rest, caps, command);
    } else {
      CursorRunsOn(s, After(st, count), count, columns, end, status, rest, caps);
      var r := ReadResponse(s, st, caps, command);
      if r.Ok? {
        assert r == ReadResultset(s, After(st, count), Prefix(count), caps);
        WithinStream(s, After(st, count), count, caps);
      }
    }
  }

  lemma WithinStream(s: seq<byte>, st: Stream, first: seq<byte>, caps: Capabilities)
    requires st.pos <= |s|
    ensures ReadResultset(s, st, Prefix(first), caps).Ok? ==> ReadResultset(s, st, Prefix(first), caps).value.stream.pos <= |s|
  {
  }

  lemma CursorPart(s: seq<byte>, st: Stream, count: seq<byte>, columns: seq<seq<byte>>, end: seq<byte>, status: nat,
                   rest: seq<seq<byte>>, caps: Capabilities, command: Command)
    requires CursorReply(count, columns, end, status, caps) && (command == Query || command == Other) && caps.deprecateEOF
    requires Ahead(s, st, [count] + (columns + ([end] + rest)))
    ensures st.pos <= |s|
    ensures var r := ReadResponse(s, st, caps, command);
            r == Ok(Read(Info(false, status, |columns|, 0, 0, 0), AfterAll(st, [count] + (columns + [end]))))
  {
    hide Ahead, AfterAll, ReadResponse, Counts, IsOk, Prefix;
    var part := RowsPart(count, columns, [], [], end, status);
    assert [] + ([] + [end]) == [end];
    assert PacketsOf(part) == [count] + (columns + [end]);
    MoreIff(status);
    assert PartOf(part, caps) && !More(InfoOf(part).status);
    OnePart(part, caps);
    FirstAndTail([part]);
    assert AllPackets([part]) == [count] + (columns + [end]);
    assert AllPackets([part]) + rest == [count] + (columns + ([end] + rest));
    SumOfOne([part], caps);
    ResponseReadExactly(s, st, [part], rest, caps, command);
  }
}

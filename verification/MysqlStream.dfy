/** The response stream object: it forwards every packet to the client while it finds the end of the response. */
module MysqlStream {
  import opened Wrappers
  import opened Bytes
  import opened Streams
  import opened MysqlPacket
  import opened MysqlReplies
  import opened MysqlResponse

  lemma Join(sent: seq<byte>, data: seq<byte>, a: nat, b: nat, c: nat)
    requires a <= b <= c <= |data|
    ensures sent + data[a..b] + data[b..c] == sent + data[a..c]
    ensures sent + data[a..a] == sent
  {
    assert data[a..b] + data[b..c] == data[a..c];
  }

  class ResponseStream {
    const reader: ByteReader
    const destination: ByteSink
    const caps: Capabilities
    var sequence: byte
    var size: nat
    var truncated: bool

    ghost predicate Valid()
      reads this, reader
    {
      reader.Valid()
    }

    ghost function View(): Stream
      reads this, reader
    {
      Stream(reader.pos, sequence, size, truncated)
    }

    constructor (reader: ByteReader, destination: ByteSink, sequence: byte, caps: Capabilities)
      requires reader.Valid()
      ensures Valid() && this.reader == reader && this.destination == destination && this.caps == caps
      ensures View() == Stream(reader.pos, sequence, 0, false)
    {
      this.reader, this.destination, this.caps := reader, destination, caps;
      this.sequence, size, truncated := sequence, 0, false;
    }

    /** Everything consumed since `start` has been forwarded. */
    ghost predicate Kept(start: nat, sent: seq<byte>)
      reads this, reader, destination
    {
      start <= reader.pos <= |reader.data| && destination.bytes == sent + reader.data[start..reader.pos]
    }

    method Next() returns (r: Result<seq<byte>, Problem>)
      requires Valid()
      modifies this, reader`pos, destination
      ensures Valid()
      ensures match NextPacket(reader.data, old(View()))
              case Ok(p) => r == Ok(p.result) && View() == p.stream && Kept(old(reader.pos), old(destination.bytes))
              case Err(e) => r == Err(e)
    {
      var item := ReadLogical(reader, destination, sequence);
      match item {
        case Err(error) => return Err(Framing(error));
        case Ok(packet) =>
          sequence := packet.nextSequence;
          size := size + packet.size;
          truncated := truncated || packet.truncated;
          return Ok(packet.payload);
      }
    }

    method SkipPackets(count: nat) returns (r: Result<(), Problem>)
      requires Valid()
      modifies this, reader`pos, destination
      ensures Valid()
      ensures match Skip(reader.data, old(View()), count)
              case Ok(st) => r == Ok(()) && View() == st && Kept(old(reader.pos), old(destination.bytes))
              case Err(e) => r == Err(e)
    {
      hide NextPacket;
      for index := 0 to count
        invariant Valid() && Kept(old(reader.pos), old(destination.bytes))
        invariant Skip(reader.data, old(View()), count) == Skip(reader.data, View(), count - index)
      {
        ghost var before := reader.pos;
        var definition :- Next();
        Join(old(destination.bytes), reader.data, old(reader.pos), before, reader.pos);
      }
      return Ok(());
    }

    /** Counts rows until an error or a terminator, which is returned with the count. */
    method CountRows() returns (r: Result<(nat, seq<byte>), Problem>)
      requires Valid()
      modifies this, reader`pos, destination
      ensures Valid()
      ensures match ReadRows(reader.data, old(View()), 0)
              case Ok(p) => r == Ok(p.result) && View() == p.stream && Kept(old(reader.pos), old(destination.bytes))
              case Err(e) => r == Err(e)
    {
      hide NextPacket;
      var rowCount := 0;
      Join(destination.bytes, reader.data, reader.pos, reader.pos, reader.pos);
      while true
        invariant Valid() && Kept(old(reader.pos), old(destination.bytes))
        invariant ReadRows(reader.data, old(View()), 0) == ReadRows(reader.data, View(), rowCount)
        decreases |reader.data| - reader.pos
      {
        ghost var before := reader.pos;
        var row :- Next();
        Join(old(destination.bytes), reader.data, old(reader.pos), before, reader.pos);
        if IsError(row) || IsEOF(row) {
          return Ok((rowCount, row));
        }
        rowCount := rowCount + 1;
      }
    }

    method GeneralResponse(first: seq<byte>, command: Command) returns (r: Result<Info, Problem>)
      requires Valid()
      modifies this, reader`pos, destination
      ensures Valid()
      ensures match ReadGeneral(reader.data, old(View()), first, caps, command)
              case Ok(p) => r == Ok(p.result) && View() == p.stream && Kept(old(reader.pos), old(destination.bytes))
              case Err(e) => r == Err(e)
      decreases |reader.data| - reader.pos, 2
    {
      hide NextPacket, ReadMore, ReadResultset, ParseOk;
      Join(destination.bytes, reader.data, reader.pos, reader.pos, reader.pos);
      if |first| == 0 {
        return Err(EmptyPacket);
      }
      if first[0] == 0xff {
        return Ok(FAILED);
      }
      if first[0] == 0x00 {
        match ParseOk(first, caps) {
          case None => return Err(BadOk);
          case Some(status) =>
            if More(status) {
              r := MoreResults(Okay(status), command);
              return;
            }
            return Ok(Okay(status));
        }
      }
      if first[0] == 0xfb {
        return Err(LocalInfile);
      }
      if command == Statistics {
        return Ok(Okay(0));
      }
      r := Resultset(first);
    }

    method Resultset(first: seq<byte>) returns (r: Result<Info, Problem>)
      requires Valid()
      modifies this, reader`pos, destination
      ensures Valid()
      ensures match ReadResultset(reader.data, old(View()), first, caps)
              case Ok(p) => r == Ok(p.result) && View() == p.stream && Kept(old(reader.pos), old(destination.bytes))
              case Err(e) => r == Err(e)
      decreases |reader.data| - reader.pos, 1
    {
      hide NextPacket, ReadMore, ReadRows, Skip, TerminatorStatus, ReadLenenc, ColumnsEnd;
      var columnCount := ReadLenenc(first, 0);
      if columnCount.Err? || columnCount.value.result.None? || columnCount.value.result.value > MAX_COLUMNS {
        return Err(BadColumnCount);
      }
      var columns := columnCount.value.result.value;
      ghost var start, sent := reader.pos, destination.bytes;
      var _ :- SkipPackets(columns);
      ghost var defined := reader.pos;
      var _ :- EndOfColumns();
      Join(sent, reader.data, start, defined, reader.pos);
      ghost var ready := reader.pos;
      var rows :- CountRows();
      Join(sent, reader.data, start, ready, reader.pos);
      if IsError(rows.1) {
        return Ok(FAILED.(columns := columns, rows := rows.0));
      }
      var result := Okay(TerminatorStatus(rows.1, caps)).(columns := columns, rows := rows.0);
      if More(result.status) {
        ghost var ended := reader.pos;
        r := MoreResults(result, Query);
        if r.Ok? {
          Join(sent, reader.data, start, ended, reader.pos);
        }
        return;
      }
      return Ok(result);
    }

    /** The terminator after the column definitions, unless the session has none. */
    method EndOfColumns() returns (r: Result<(), Problem>)
      requires Valid()
      modifies this, reader`pos, destination
      ensures Valid()
      ensures match ColumnsEnd(reader.data, old(View()), caps)
              case Ok(st) => r == Ok(()) && View() == st && Kept(old(reader.pos), old(destination.bytes))
              case Err(e) => r == Err(e)
    {
      hide NextPacket;
      Join(destination.bytes, reader.data, reader.pos, reader.pos, reader.pos);
      if !caps.deprecateEOF {
        var terminator :- Next();
        if !IsEOF(terminator) {
          return Err(MissingColumnEnd);
        }
      }
      return Ok(());
    }

    method MoreResults(start: Info, command: Command) returns (r: Result<Info, Problem>)
      requires Valid()
      modifies this, reader`pos, destination
      ensures Valid()
      ensures match ReadMore(reader.data, old(View()), start, caps, command)
              case Ok(p) => r == Ok(p.result) && View() == p.stream && Kept(old(reader.pos), old(destination.bytes))
              case Err(e) => r == Err(e)
      decreases |reader.data| - reader.pos, 0
    {
      hide NextPacket, ReadGeneral, More;
      var accumulated := start;
      Join(destination.bytes, reader.data, reader.pos, reader.pos, reader.pos);
      while More(accumulated.status)
        invariant Valid() && Kept(old(reader.pos), old(destination.bytes))
        invariant ReadMore(reader.data, old(View()), start, caps, command)
               == ReadMore(reader.data, View(), accumulated, caps, command)
        decreases |reader.data| - reader.pos
      {
        ghost var before := reader.pos;
        var first :- Next();
        Join(old(destination.bytes), reader.data, old(reader.pos), before, reader.pos);
        before := reader.pos;
        var next :- GeneralResponse(first, command);
        Join(old(destination.bytes), reader.data, old(reader.pos), before, reader.pos);
        accumulated := Accumulate(accumulated, next);
      }
      return Ok(accumulated);
    }

    method PrepareResponse() returns (r: Result<Info, Problem>)
      requires Valid()
      modifies this, reader`pos, destination
      ensures Valid()
      ensures match ReadPrepare(reader.data, old(View()), caps)
              case Ok(p) => r == Ok(p.result) && View() == p.stream && Kept(old(reader.pos), old(destination.bytes))
              case Err(e) => r == Err(e)
    {
      hide NextPacket, Skip, LittleEndian;
      var first :- Next();
      if |first| == 0 {
        return Err(EmptyPacket);
      }
      if first[0] == 0xff {
        return Ok(FAILED);
      }
      if first[0] != 0x00 || |first| < 12 {
        return Err(BadPrepare);
      }
      var columns, parameters := LittleEndian(first[5..7]), LittleEndian(first[7..9]);
      ghost var before := reader.pos;
      var _ :- SkipPackets(parameters + (if parameters > 0 && !caps.deprecateEOF then 1 else 0));
      Join(old(destination.bytes), reader.data, old(reader.pos), before, reader.pos);
      before := reader.pos;
      var _ :- SkipPackets(columns + (if columns > 0 && !caps.deprecateEOF then 1 else 0));
      Join(old(destination.bytes), reader.data, old(reader.pos), before, reader.pos);
      return Ok(Info(false, 0, columns, 0, LittleEndian(first[1..5]), parameters));
    }

    method CommandResponse(command: Command) returns (r: Result<Info, Problem>)
      requires Valid()
      modifies this, reader`pos, destination
      ensures Valid()
      ensures match ReadResponse(reader.data, old(View()), caps, command)
              case Ok(p) => r == Ok(p.result) && View() == p.stream && Kept(old(reader.pos), old(destination.bytes))
              case Err(e) => r == Err(e)
    {
      hide NextPacket, ReadGeneral, ReadRows, ReadPrepare;
      if command == StmtPrepare {
        r := PrepareResponse();
        return;
      }
      if command == FieldList || command == StmtFetch {
        var rows :- CountRows();
        return Ok(if IsError(rows.1) then FAILED else Okay(0).(rows := rows.0));
      }
      var first :- Next();
      ghost var before := reader.pos;
      r := GeneralResponse(first, command);
      if r.Ok? {
        Join(old(destination.bytes), reader.data, old(reader.pos), before, reader.pos);
      }
    }
  }
}

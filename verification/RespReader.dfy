/**
 The buffered frame reader: it consumes a byte stream, keeps a raw copy and builds the value.
 On success the raw copy is exactly what was consumed, and value, position and error are those
 of the parsing functions.
 */
module RespReader {
  import opened Wrappers
  import opened Decimal
  import opened RespGrammar
  import opened RespParser
  import RespTheorems

  const BUFFER_SIZE: nat := 4096

  datatype SliceEnd = Found | BufferFull | EndOfStream

  /** A buffered stream: everything the peer sends, and how much of it has been read. */
  class Reader {
    const data: string
    var pos: nat

    ghost predicate Valid()
      reads this
    {
      pos <= |data|
    }

    constructor (data: string)
      ensures this.data == data && pos == 0
    {
      this.data := data;
      pos := 0;
    }

    method ReadByte() returns (r: Result<char, Error>)
      requires Valid()
      modifies this`pos
      ensures Valid()
      ensures old(pos) < |data| ==> r == Ok(data[old(pos)]) && pos == old(pos) + 1
      ensures old(pos) == |data| ==> r == Err(UnexpectedEnd) && pos == old(pos)
    {
      if pos == |data| {
        return Err(UnexpectedEnd);
      }
      r := Ok(data[pos]);
      pos := pos + 1;
    }

    /** Up to and including a newline, or as much as the buffer or the stream holds. */
    method ReadSlice() returns (fragment: string, end: SliceEnd)
      requires Valid()
      modifies this`pos
      ensures Valid() && old(pos) <= pos && fragment == data[old(pos)..pos]
      ensures end == Found <==> FindNewline(data, old(pos)) < |data| && pos == FindNewline(data, old(pos)) + 1
      ensures end != Found ==> pos <= FindNewline(data, old(pos))
      ensures end == BufferFull ==> pos == old(pos) + BUFFER_SIZE
      ensures end == EndOfStream ==> pos == |data|
    {
      var limit := if |data| - pos < BUFFER_SIZE then |data| - pos else BUFFER_SIZE;
      ghost var newline := FindNewline(data, pos);
      var length := 0;
      while length < limit && data[pos + length] != '\n'
        invariant length <= limit
        invariant pos + length <= newline
      {
        length := length + 1;
      }
      if length < limit {
        length := length + 1;
        end := Found;
      } else {
        end := if limit == BUFFER_SIZE then BufferFull else EndOfStream;
      }
      fragment := data[pos..pos + length];
      pos := pos + length;
    }

    method ReadFull(length: nat) returns (r: Result<string, Error>)
      requires Valid()
      modifies this`pos
      ensures Valid()
      ensures |data| - old(pos) >= length ==> pos == old(pos) + length && r == Ok(data[old(pos)..pos])
      ensures |data| - old(pos) < length ==> r == Err(UnexpectedEnd)
    {
      if |data| - pos < length {
        pos := |data|;
        return Err(UnexpectedEnd);
      }
      r := Ok(data[pos..pos + length]);
      pos := pos + length;
    }
  }

  class Buffer {
    var bytes: string

    constructor ()
      ensures bytes == ""
    {
      bytes := "";
    }
  }

  /** The raw copy holds what was read since `start`. */
  ghost predicate Copies(reader: Reader, raw: Buffer, start: nat)
    reads reader, raw
  {
    start <= reader.pos <= |reader.data| && raw.bytes == reader.data[start..reader.pos]
  }

  lemma FindNewlineFrom(s: string, pos: nat, mid: nat)
    requires pos <= mid <= |s| && mid <= FindNewline(s, pos)
    ensures FindNewline(s, mid) == FindNewline(s, pos)
    decreases mid - pos
  {
    if pos < mid {
      FindNewlineFrom(s, pos + 1, mid);
    }
  }

  /** A line that was found, as the loop sees it. */
  lemma LineRead(s: string, start: nat, pos: nat)
    requires start <= pos <= |s| && FindNewline(s, pos) < |s|
    requires FindNewline(s, pos) + 1 - start <= MAX_FRAME
    ensures var line := s[pos..FindNewline(s, pos) + 1];
            ReadLine(s, start, pos)
            == if |line| < 2 || line[|line| - 2..] != CRLF then Err(BadLineTerminator)
               else Ok(Parsed(line[..|line| - 2], FindNewline(s, pos) + 1))
  {
    var end := FindNewline(s, pos);
    var line := s[pos..end + 1];
    if |line| >= 2 {
      assert line[|line| - 2..] == [s[end - 1], '\n'];
      assert line[..|line| - 2] == s[pos..end - 1];
    }
  }

  /** The two ways a line can fail before it is found. */
  lemma LineUnread(s: string, start: nat, pos: nat)
    requires start <= pos <= |s|
    ensures var end := FindNewline(s, pos);
            && (end == |s| && end - start <= MAX_FRAME ==> ReadLine(s, start, pos) == Err(UnexpectedEnd))
            && (end - start + (if end < |s| then 1 else 0) > MAX_FRAME ==>
                ReadLine(s, start, pos) == Err(FrameTooLarge))
  {
  }

  lemma DataUnread(s: string, pos: nat, length: nat)
    requires pos <= |s|
    ensures |s| - pos < length + 2 ==> ReadData(s, pos, length) == Err(UnexpectedEnd)
  {
  }

  /** Bulk data that was read, as the caller checks it. */
  lemma DataRead(s: string, pos: nat, length: nat)
    requires pos + length + 2 <= |s|
    ensures var data := s[pos..pos + length + 2];
            ReadData(s, pos, length)
            == if data[length..] != CRLF then Err(BadBulkTerminator)
               else Ok(Parsed(data[..length], pos + length + 2))
  {
    assert s[pos..pos + length + 2][length..] == s[pos + length..pos + length + 2];
    assert s[pos..pos + length + 2][..length] == s[pos..pos + length];
  }

  /** A whole line with its newline, gathered from as many buffer-sized fragments as it takes. */
  method ReadRawLine(reader: Reader, kept: nat, ghost start: nat) returns (r: Result<string, Error>)
    requires start <= reader.pos <= |reader.data| && kept == reader.pos - start
    modifies reader`pos
    ensures var end := FindNewline(reader.data, old(reader.pos));
            if end < |reader.data| && end + 1 - start <= MAX_FRAME then
              reader.pos == end + 1 && r == Ok(reader.data[old(reader.pos)..reader.pos])
            else r == Err(if end < |reader.data| || end - start > MAX_FRAME then FrameTooLarge else UnexpectedEnd)
  {
    ghost var from := reader.pos;
    var line := "";
    while true
      invariant from <= reader.pos <= |reader.data|
      invariant reader.pos <= FindNewline(reader.data, from)
      invariant line == reader.data[from..reader.pos]
      decreases |reader.data| - reader.pos
    {
      FindNewlineFrom(reader.data, from, reader.pos);
      var fragment, end := reader.ReadSlice();
      if kept + |line| + |fragment| > MAX_FRAME {
        return Err(FrameTooLarge);
      }
      line := line + fragment;
      assert line == reader.data[from..reader.pos];
      if end == Found {
        break;
      }
      if end == EndOfStream {
        return Err(UnexpectedEnd);
      }
    }
    return Ok(line);
  }

  method ReadTextLine(reader: Reader, raw: Buffer, ghost start: nat) returns (r: Result<string, Error>)
    requires Copies(reader, raw, start)
    modifies reader`pos, raw
    ensures match ReadLine(reader.data, start, old(reader.pos))
            case Ok(p) => r == Ok(p.result) && reader.pos == p.next && Copies(reader, raw, start)
            case Err(e) => r == Err(e)
  {
    hide ReadLine;
    ghost var from := reader.pos;
    LineUnread(reader.data, start, from);
    var line :- ReadRawLine(reader, |raw.bytes|, start);
    LineRead(reader.data, start, from);
    raw.bytes := raw.bytes + line;
    if |line| < 2 || line[|line| - 2..] != CRLF {
      return Err(BadLineTerminator);
    }
    return Ok(line[..|line| - 2]);
  }

  method ReadFrame(reader: Reader) returns (raw: string, r: Result<Value, Error>)
    requires reader.Valid()
    modifies reader`pos
    ensures match ParseValue(reader.data, old(reader.pos), old(reader.pos), 0)
            case Ok(p) =>
              && r == Ok(Meaning(p.result)) && reader.pos == p.next
              && raw == reader.data[old(reader.pos)..reader.pos]
            case Err(e) => r == Err(e)
  {
    var buffer := new Buffer();
    r := ReadOne(reader, buffer, reader.pos, 0);
    raw := buffer.bytes;
  }

  method ReadOne(reader: Reader, raw: Buffer, ghost start: nat, depth: nat) returns (r: Result<Value, Error>)
    requires Copies(reader, raw, start)
    modifies reader`pos, raw
    ensures match ParseValue(reader.data, start, old(reader.pos), depth)
            case Ok(p) => r == Ok(Meaning(p.result)) && reader.pos == p.next && Copies(reader, raw, start)
            case Err(e) => r == Err(e)
    decreases |reader.data| - reader.pos, 0
  {
    hide ReadLine, ReadData, Atoi, ParseItems, ParseStream, ParseChunks;
    if depth > MAX_DEPTH {
      return Err(TooDeep);
    }
    ghost var pos := reader.pos;
    var prefix :- reader.ReadByte();
    raw.bytes := raw.bytes + [prefix];
    var line :- ReadTextLine(reader, raw, start);
    ghost var body := ParseBody(reader.data, start, pos, depth, prefix, Parsed(line, reader.pos));
    if IsLineKind(prefix) {
      return Ok(Value(prefix, line, []));
    } else if IsBulkKind(prefix) {
      if line == "?" && prefix == '$' {
        r := ReadStreamedString(reader, raw, start);
        return;
      }
      r := ReadBulk(reader, raw, start, prefix, line);
    } else if IsArrayKind(prefix) || IsMapKind(prefix) {
      if line == "?" {
        r := ReadStreamedItems(reader, raw, start, depth, prefix);
        return;
      }
      var count :- ParseLength(line);
      if count < 0 {
        return Ok(Value(prefix, "null", []));
      }
      if count > (if IsMapKind(prefix) then MAX_COLLECTION / 2 else MAX_COLLECTION) {
        return Err(CollectionTooLarge);
      }
      r := ReadCounted(reader, raw, start, depth, if IsMapKind(prefix) then count * 2 else count, prefix);
    } else if prefix == '.' {
      if line != "" {
        return Err(BadAggregateEnd);
      }
      return Ok(Value('.', "", []));
    } else {
      return Err(UnsupportedPrefix);
    }
  }

  /** The data of a definite-length bulk, after its length line. */
  method ReadBulk(reader: Reader, raw: Buffer, ghost start: nat, prefix: char,
                  line: string) returns (r: Result<Value, Error>)
    requires Copies(reader, raw, start) && IsBulkKind(prefix) && !(line == "?" && prefix == '$')
    requires start + 3 <= reader.pos
    modifies reader`pos, raw
    ensures match ParseBody(reader.data, start, start, 0, prefix, Parsed(line, old(reader.pos)))
            case Ok(p) => r == Ok(Meaning(p.result)) && reader.pos == p.next && Copies(reader, raw, start)
            case Err(e) => r == Err(e)
  {
    hide Atoi, ReadData;
    var length :- ParseLength(line);
    if length < 0 {
      return Ok(Value(prefix, "null", []));
    }
    if length > MAX_FRAME {
      return Err(FrameTooLarge);
    }
    DataUnread(reader.data, reader.pos, length);
    var data :- reader.ReadFull(length + 2);
    raw.bytes := raw.bytes + data;
    DataRead(reader.data, old(reader.pos), length);
    if data[length..] != CRLF {
      return Err(BadBulkTerminator);
    }
    return Ok(Value(prefix, data[..length], []));
  }

  /** One chunk; no data marks the end of the string. */
  method ReadChunk(reader: Reader, raw: Buffer, ghost start: nat) returns (r: Result<string, Error>)
    requires Copies(reader, raw, start)
    modifies reader`pos, raw
    ensures match ParseChunk(reader.data, start, old(reader.pos))
            case Ok(p) => r == Ok(p.result.data) && reader.pos == p.next && Copies(reader, raw, start)
            case Err(e) => r == Err(e)
  {
    hide ReadLine, ReadData, Atoi;
    var prefix :- reader.ReadByte();
    raw.bytes := raw.bytes + [prefix];
    if prefix != ';' {
      return Err(BadChunkPrefix);
    }
    var line :- ReadTextLine(reader, raw, start);
    var length :- ParseLength(line);
    if length < 0 {
      return Err(BadLength);
    }
    if length == 0 {
      return Ok("");
    }
    if length > MAX_FRAME || |raw.bytes| + length + 2 > MAX_FRAME {
      return Err(FrameTooLarge);
    }
    ghost var mid := reader.pos;
    DataUnread(reader.data, mid, length);
    var data :- reader.ReadFull(length + 2);
    DataRead(reader.data, mid, length);
    if data[length..] != CRLF {
      return Err(BadBulkTerminator);
    }
    raw.bytes := raw.bytes + data;
    return Ok(data[..length]);
  }

  method ReadStreamedString(reader: Reader, raw: Buffer, ghost start: nat) returns (r: Result<Value, Error>)
    requires Copies(reader, raw, start)
    modifies reader`pos, raw
    ensures match ParseChunks(reader.data, start, old(reader.pos))
            case Ok(p) => r == Ok(Meaning(p.result)) && reader.pos == p.next && Copies(reader, raw, start)
            case Err(e) => r == Err(e)
  {
    hide ParseChunk;
    var text := "";
    ghost var whole := ParseChunks(reader.data, start, reader.pos);
    ghost var read: seq<Chunk> := [];
    AfterNoChunks(whole);
    while true
      invariant Copies(reader, raw, start)
      invariant text == Joined(read)
      invariant whole == AfterChunks(read, ParseChunks(reader.data, start, reader.pos))
      decreases |reader.data| - reader.pos
    {
      ghost var chunk := ParseChunk(reader.data, start, reader.pos);
      var data :- ReadChunk(reader, raw, start);
      if data == "" {
        assert read + [] == read;
        return Ok(Value('$', text, []));
      }
      text := text + data;
      JoinedSnoc(read, chunk.value.result);
      AfterChunksSnoc(read, chunk.value.result, ParseChunks(reader.data, start, reader.pos));
      read := read + [chunk.value.result];
    }
  }

  /** The result of the whole string once `read` chunks are behind it. */
  ghost function AfterChunks(read: seq<Chunk>, rest: Result<Parsed<Node>, Error>): Result<Parsed<Node>, Error> {
    if rest.Ok? && rest.value.result.Chunked? then
      Ok(Parsed(Chunked(read + rest.value.result.chunks, rest.value.result.last), rest.value.next))
    else rest
  }

  lemma AfterNoChunks(rest: Result<Parsed<Node>, Error>)
    ensures AfterChunks([], rest) == rest
  {
    if rest.Ok? && rest.value.result.Chunked? {
      assert [] + rest.value.result.chunks == rest.value.result.chunks;
    }
  }

  lemma AfterChunksSnoc(read: seq<Chunk>, chunk: Chunk, rest: Result<Parsed<Node>, Error>)
    ensures AfterChunks(read + [chunk], rest) == AfterChunks(read, AfterChunks([chunk], rest))
  {
    if rest.Ok? && rest.value.result.Chunked? {
      assert read + [chunk] + rest.value.result.chunks == read + ([chunk] + rest.value.result.chunks);
    }
  }

  lemma {:induction false} JoinedSnoc(read: seq<Chunk>, chunk: Chunk)
    ensures Joined(read + [chunk]) == Joined(read) + chunk.data
  {
    if read == [] {
      assert [chunk][1..] == [];
    } else {
      assert (read + [chunk])[1..] == read[1..] + [chunk];
      JoinedSnoc(read[1..], chunk);
    }
  }

  /** Elements read so far, then whatever the rest of the collection gives. */
  ghost function AfterItems(read: seq<Node>, rest: Result<Parsed<seq<Node>>, Error>): Result<Parsed<seq<Node>>, Error> {
    if rest.Ok? then Ok(Parsed(read + rest.value.result, rest.value.next)) else rest
  }

  lemma AfterNoItems(rest: Result<Parsed<seq<Node>>, Error>)
    ensures AfterItems([], rest) == rest
  {
    if rest.Ok? {
      assert [] + rest.value.result == rest.value.result;
    }
  }

  lemma AfterItemsSnoc(read: seq<Node>, item: Node, rest: Result<Parsed<seq<Node>>, Error>)
    ensures AfterItems(read + [item], rest) == AfterItems(read, AfterItems([item], rest))
  {
    if rest.Ok? {
      assert read + [item] + rest.value.result == read + ([item] + rest.value.result);
    }
  }

  lemma {:induction false} MeaningAllSnoc(read: seq<Node>, item: Node)
    ensures MeaningAll(read + [item]) == MeaningAll(read) + [Meaning(item)]
  {
    if read == [] {
      assert [item][1..] == [];
    } else {
      assert (read + [item])[1..] == read[1..] + [item];
      MeaningAllSnoc(read[1..], item);
    }
  }

  lemma OnlyEndIsAnEnd(s: string, start: nat, pos: nat, depth: nat)
    requires start <= pos <= |s| && ParseValue(s, start, pos, depth).Ok?
    ensures var node := ParseValue(s, start, pos, depth).value.result;
            Meaning(node).kind == '.' <==> node == End
  {
    RespTheorems.ValueSound(s, start, pos, depth);
  }

  method ReadCounted(reader: Reader, raw: Buffer, ghost start: nat, depth: nat, count: nat, kind: char)
    returns (r: Result<Value, Error>)
    requires Copies(reader, raw, start)
    modifies reader`pos, raw
    ensures match ParseItems(reader.data, start, old(reader.pos), depth + 1, count)
            case Ok(p) => r == Ok(Value(kind, "", MeaningAll(p.result))) && reader.pos == p.next && Copies(reader, raw, start)
            case Err(e) => r == Err(e)
    decreases |reader.data| - reader.pos, 1
  {
    hide ParseValue;
    var items := [];
    ghost var whole := ParseItems(reader.data, start, reader.pos, depth + 1, count);
    ghost var read: seq<Node> := [];
    AfterNoItems(whole);
    for index := 0 to count
      invariant Copies(reader, raw, start) && reader.pos >= old(reader.pos)
      invariant items == MeaningAll(read)
      invariant whole == AfterItems(read, ParseItems(reader.data, start, reader.pos, depth + 1, count - index))
    {
      ghost var node := ParseValue(reader.data, start, reader.pos, depth + 1);
      ghost var rest := ParseItems(reader.data, start, reader.pos, depth + 1, count - index);
      var item :- ReadOne(reader, raw, start, depth + 1);
      MeaningAllSnoc(read, node.value.result);
      items := items + [item];
      if |raw.bytes| > MAX_FRAME {
        return Err(FrameTooLarge);
      }
      AfterItemsSnoc(read, node.value.result, ParseItems(reader.data, start, reader.pos, depth + 1, count - index - 1));
      read := read + [node.value.result];
    }
    assert read + [] == read;
    return Ok(Value(kind, "", items));
  }

  method ReadStreamedItems(reader: Reader, raw: Buffer, ghost start: nat, depth: nat, kind: char)
    returns (r: Result<Value, Error>)
    requires Copies(reader, raw, start)
    modifies reader`pos, raw
    ensures match ParseStream(reader.data, start, old(reader.pos), depth + 1, 0, IsMapKind(kind))
            case Ok(p) => r == Ok(Value(kind, "", MeaningAll(p.result))) && reader.pos == p.next && Copies(reader, raw, start)
            case Err(e) => r == Err(e)
    decreases |reader.data| - reader.pos, 1
  {
    hide ParseValue;
    var items := [];
    ghost var whole := ParseStream(reader.data, start, reader.pos, depth + 1, 0, IsMapKind(kind));
    ghost var read: seq<Node> := [];
    AfterNoItems(whole);
    while true
      invariant Copies(reader, raw, start) && reader.pos >= old(reader.pos)
      invariant items == MeaningAll(read) && |items| == |read|
      invariant whole == AfterItems(read, ParseStream(reader.data, start, reader.pos, depth + 1, |read|, IsMapKind(kind)))
      decreases |reader.data| - reader.pos
    {
      ghost var before := reader.pos;
      ghost var node := ParseValue(reader.data, start, before, depth + 1);
      var item :- ReadOne(reader, raw, start, depth + 1);
      OnlyEndIsAnEnd(reader.data, start, before, depth + 1);
      if item.kind == '.' {
        assert read + [] == read;
        if IsMapKind(kind) && |items| % 2 != 0 {
          return Err(UnmatchedKey);
        }
        return Ok(Value(kind, "", items));
      }
      MeaningAllSnoc(read, node.value.result);
      items := items + [item];
      if |items| > MAX_COLLECTION || |raw.bytes| > MAX_FRAME {
        return Err(CollectionTooLarge);
      }
      AfterItemsSnoc(read, node.value.result,
                     ParseStream(reader.data, start, reader.pos, depth + 1, |read| + 1, IsMapKind(kind)));
      read := read + [node.value.result];
    }
  }
}

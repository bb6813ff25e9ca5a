/** The RESP frame reader: which bytes it accepts, and what it returns for them. */
module RespParser {
  import opened Wrappers
  import opened Decimal
  import opened RespGrammar
  import opened Streams

  datatype Error =
    | UnexpectedEnd
    | TooDeep
    | FrameTooLarge
    | BadLineTerminator
    | BadLength
    | BadBulkTerminator
    | CollectionTooLarge
    | UnsupportedPrefix
    | BadAggregateEnd
    | BadChunkPrefix
    | UnmatchedKey

  /** A derivation and the position after it. */
  datatype Parsed<+T> = Parsed(result: T, next: nat)

  // ----- the reader as a function of the bytes -------------------------------------------------
  // `start` is where the frame began, so `pos - start` is the length of the raw copy kept so far.

  function FindNewline(s: string, pos: nat): (end: nat)
    requires pos <= |s|
    ensures pos <= end <= |s|
    ensures end < |s| ==> s[end] == '\n'
    ensures forall i :: pos <= i < end ==> s[i] != '\n'
    decreases |s| - pos
  {
    if pos == |s| || s[pos] == '\n' then pos else FindNewline(s, pos + 1)
  }

  function ReadLine(s: string, start: nat, pos: nat): (r: Result<Parsed<string>, Error>)
    requires start <= pos <= |s|
    ensures r.Ok? ==> pos + 2 <= r.value.next <= |s|
  {
    var end := FindNewline(s, pos);
    var after := if end < |s| then end + 1 else end;
    if after - start > MAX_FRAME then Err(FrameTooLarge)
    else if end == |s| then Err(UnexpectedEnd)
    else if end == pos || s[end - 1] != '\r' then Err(BadLineTerminator)
    else Ok(Parsed(s[pos..end - 1], end + 1))
  }

  /** `length` bytes and a CRLF. */
  function ReadData(s: string, pos: nat, length: nat): (r: Result<Parsed<string>, Error>)
    requires pos <= |s|
    ensures r.Ok? ==> r.value.next == pos + length + 2 <= |s|
  {
    if |s| - pos < length + 2 then Err(UnexpectedEnd)
    else if s[pos + length..pos + length + 2] != CRLF then Err(BadBulkTerminator)
    else Ok(Parsed(s[pos..pos + length], pos + length + 2))
  }

  function ParseValue(s: string, start: nat, pos: nat, depth: nat): (r: Result<Parsed<Node>, Error>)
    requires start <= pos <= |s|
    ensures r.Ok? ==> pos + 3 <= r.value.next <= |s|
    decreases |s| - pos, 0
  {
    if depth > MAX_DEPTH then Err(TooDeep)
    else if pos == |s| then Err(UnexpectedEnd)
    else
      var line :- ReadLine(s, start, pos + 1);
      ParseBody(s, start, pos, depth, s[pos], line)
  }

  function ParseBody(s: string, start: nat, pos: nat, depth: nat, kind: char, line: Parsed<string>)
    : (r: Result<Parsed<Node>, Error>)
    requires start <= pos && pos + 3 <= line.next <= |s|
    ensures r.Ok? ==> line.next <= r.value.next <= |s|
    decreases |s| - line.next, 2
  {
    var text := line.result;
    if IsLineKind(kind) then Ok(Parsed(Line(kind, text), line.next))
    else if kind == '$' && text == "?" then
      ParseChunks(s, start, line.next)
    else if IsBulkKind(kind) then
      var length :- ParseLength(text);
      if length < 0 then Ok(Parsed(Null(kind, text), line.next))
      else if length > MAX_FRAME then Err(FrameTooLarge)
      else
        var data :- ReadData(s, line.next, length);
        Ok(Parsed(Bulk(kind, text, data.result), data.next))
    else if IsArrayKind(kind) || IsMapKind(kind) then
      if text == "?" then
        var items :- ParseStream(s, start, line.next, depth + 1, 0, IsMapKind(kind));
        Ok(Parsed(Streamed(kind, items.result), items.next))
      else
        var count :- ParseLength(text);
        if count < 0 then Ok(Parsed(Null(kind, text), line.next))
        else
          var total := if IsMapKind(kind) then count * 2 else count;
          if total > MAX_COLLECTION then Err(CollectionTooLarge)
          else
            var items :- ParseItems(s, start, line.next, depth + 1, total);
            Ok(Parsed(Aggregate(kind, text, items.result), items.next))
    else if kind == '.' then
      if text != "" then Err(BadAggregateEnd) else Ok(Parsed(End, line.next))
    else Err(UnsupportedPrefix)
  }

  function ParseLength(text: string): Result<int, Error> {
    match Atoi(text)
    case Some(length) => Ok(length)
    case None => Err(BadLength)
  }

  function ParseItems(s: string, start: nat, pos: nat, depth: nat, count: nat)
    : (r: Result<Parsed<seq<Node>>, Error>)
    requires start <= pos <= |s|
    ensures r.Ok? ==> pos <= r.value.next <= |s| && |r.value.result| == count
    decreases |s| - pos, 1
  {
    if count == 0 then Ok(Parsed([], pos))
    else
      var item :- ParseValue(s, start, pos, depth);
      if item.next - start > MAX_FRAME then Err(FrameTooLarge)
      else
        var rest :- ParseItems(s, start, item.next, depth, count - 1);
        Ok(Parsed([item.result] + rest.result, rest.next))
  }

  function ParseStream(s: string, start: nat, pos: nat, depth: nat, seen: nat, pairs: bool)
    : (r: Result<Parsed<seq<Node>>, Error>)
    requires start <= pos <= |s|
    ensures r.Ok? ==> pos <= r.value.next <= |s|
    decreases |s| - pos, 1
  {
    var item :- ParseValue(s, start, pos, depth);
    if item.result == End then
      if pairs && seen % 2 != 0 then Err(UnmatchedKey) else Ok(Parsed([], item.next))
    else if seen + 1 > MAX_COLLECTION || item.next - start > MAX_FRAME then Err(CollectionTooLarge)
    else
      var rest :- ParseStream(s, start, item.next, depth, seen + 1, pairs);
      Ok(Parsed([item.result] + rest.result, rest.next))
  }

  /** One chunk of a streamed string; the chunk of length zero, which has no data line, ends it. */
  function ParseChunk(s: string, start: nat, pos: nat): (r: Result<Parsed<Chunk>, Error>)
    requires start <= pos <= |s|
    ensures r.Ok? ==> pos + 3 <= r.value.next <= |s|
  {
    if pos == |s| then Err(UnexpectedEnd)
    else if s[pos] != ';' then Err(BadChunkPrefix)
    else
      var line :- ReadLine(s, start, pos + 1);
      var length :- ParseLength(line.result);
      if length < 0 then Err(BadLength)
      else if length == 0 then Ok(Parsed(Chunk(line.result, ""), line.next))
      else if length > MAX_FRAME || line.next - start + length + 2 > MAX_FRAME then Err(FrameTooLarge)
      else
        var data :- ReadData(s, line.next, length);
        Ok(Parsed(Chunk(line.result, data.result), data.next))
  }

  /** The chunks of a streamed string, up to and including the last. */
  function ParseChunks(s: string, start: nat, pos: nat): (r: Result<Parsed<Node>, Error>)
    requires start <= pos <= |s|
    ensures r.Ok? ==> r.value.result.Chunked? && pos <= r.value.next <= |s|
    decreases |s| - pos
  {
    var chunk :- ParseChunk(s, start, pos);
    if chunk.result.data == "" then Ok(Parsed(Chunked([], chunk.result.length), chunk.next))
    else
      var rest :- ParseChunks(s, start, chunk.next);
      Ok(Parsed(Chunked([chunk.result] + rest.result.chunks, rest.result.last), rest.next))
  }

  function ParseFrame(s: string): Result<Parsed<Node>, Error> {
    ParseValue(s, 0, 0, 0)
  }

  // ----- soundness: what is accepted is a derivation within the limits -------------------------

  /** A prefix byte and a line are read exactly where an encoded line stands within the limit. */
  lemma LineIff(s: string, start: nat, pos: nat, text: string, next: nat)
    requires start <= pos < |s|
    ensures ReadLine(s, start, pos + 1) == Ok(Parsed(text, next)) <==>
            && At(s, pos, EncodeLine(s[pos], text)) && next == pos + |text| + 3
            && LineFits(pos - start, text)
  {
    if ReadLine(s, start, pos + 1) == Ok(Parsed(text, next)) {
      var end := FindNewline(s, pos + 1);
      assert s[pos..next] == [s[pos]] + s[pos + 1..end - 1] + s[end - 1..end + 1];
    }
    if At(s, pos, EncodeLine(s[pos], text)) && LineFits(pos - start, text) {
      LineFound(s, pos, text);
    }
  }

  lemma LineFound(s: string, pos: nat, text: string)
    requires pos < |s| && At(s, pos, EncodeLine(s[pos], text)) && OneLine(text)
    ensures var end := FindNewline(s, pos + 1);
            end == pos + |text| + 2 < |s| && s[end - 1] == '\r' && s[pos + 1..end - 1] == text
  {
    var bytes := EncodeLine(s[pos], text);
    assert forall i :: 0 <= i < |bytes| ==> s[pos + i] == bytes[i];
    var stop := pos + 1 + |text| + 1;
    assert s[stop] == bytes[|text| + 2] == '\n';
    assert s[stop - 1] == bytes[|text| + 1] == '\r';
    forall i | pos + 1 <= i < stop ensures s[i] != '\n' {
      assert s[i] == bytes[i - pos];
    }
    assert FindNewline(s, pos + 1) == stop;
    forall i | 0 <= i < |text| ensures s[pos + 1..stop - 1][i] == text[i] {
      assert s[pos + 1 + i] == bytes[1 + i];
    }
  }

  lemma DataIff(s: string, pos: nat, length: nat, data: string, next: nat)
    requires pos <= |s|
    ensures ReadData(s, pos, length) == Ok(Parsed(data, next)) <==>
            |data| == length && At(s, pos, data + CRLF) && next == pos + length + 2
  {
    AtConcat(s, pos, data, CRLF);
  }
}

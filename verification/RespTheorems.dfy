/** The reader accepts exactly the RESP grammar within the limits, and what follows from that. */
module RespTheorems {
  import opened Wrappers
  import opened Decimal
  import opened RespGrammar
  import opened Streams
  import opened RespParser

  // ----- soundness -----------------------------------------------------------------------------

  /** `bytes` is what was consumed between two positions. */
  predicate Spans(s: string, pos: nat, next: nat, bytes: string) {
    next == pos + |bytes| && At(s, pos, bytes)
  }

  lemma SpansConcat(s: string, pos: nat, mid: nat, next: nat, a: string, b: string)
    requires Spans(s, pos, mid, a) && Spans(s, mid, next, b)
    ensures Spans(s, pos, next, a + b)
  {
    AtConcat(s, pos, a, b);
  }

  lemma {:induction false} ValueSound(s: string, start: nat, pos: nat, depth: nat)
    requires start <= pos <= |s|
    requires ParseValue(s, start, pos, depth).Ok?
    ensures var p := ParseValue(s, start, pos, depth).value;
            Fits(p.result, pos - start, depth) && Spans(s, pos, p.next, Encode(p.result))
    decreases |s| - pos, 0
  {
    hide At, ReadLine, Fits, ParseBody, Encode;
    var p := ParseValue(s, start, pos, depth).value;
    var line := ReadLine(s, start, pos + 1).value;
    LineIff(s, start, pos, line.result, line.next);
    BodySound(s, start, pos, depth, s[pos], line);
    SpansConcat(s, pos, line.next, p.next, EncodeLine(s[pos], line.result), Rest(p.result));
    HeadAndRest(p.result);
  }

  /** The first line of an encoding, and the bytes after that line. */
  function Head(node: Node): (char, string) {
    match node
    case Line(kind, text) => (kind, text)
    case Bulk(kind, length, _) => (kind, length)
    case Null(kind, length) => (kind, length)
    case Chunked(_, _) => ('$', "?")
    case Aggregate(kind, count, _) => (kind, count)
    case Streamed(kind, _) => (kind, "?")
    case End => ('.', "")
  }

  function Rest(node: Node): string {
    match node
    case Bulk(_, _, text) => text + CRLF
    case Chunked(chunks, last) => EncodeChunks(chunks, last)
    case Aggregate(_, _, items) => EncodeAll(items)
    case Streamed(_, items) => EncodeStream(items)
    case _ => ""
  }

  lemma HeadAndRest(node: Node)
    ensures Encode(node) == EncodeLine(Head(node).0, Head(node).1) + Rest(node)
  {
  }

  lemma {:induction false} BodySound(s: string, start: nat, pos: nat, depth: nat, kind: char, line: Parsed<string>)
    requires start <= pos && pos + 3 <= line.next <= |s| && depth <= MAX_DEPTH
    requires line.next == pos + |line.result| + 3 && LineFits(pos - start, line.result)
    requires ParseBody(s, start, pos, depth, kind, line).Ok?
    ensures var p := ParseBody(s, start, pos, depth, kind, line).value;
            && Fits(p.result, pos - start, depth) && Head(p.result) == (kind, line.result)
            && Spans(s, line.next, p.next, Rest(p.result))
    decreases |s| - line.next, 2
  {
    hide At, OneLine, Atoi, ReadData, Encode, EncodeAll, EncodeChunks;
    hide ItemsFit, StreamFits, ChunksFit, ParseItems, ParseStream, ParseChunks;
    var p := ParseBody(s, start, pos, depth, kind, line).value;
    match p.result {
      case Line(_, _) => EmptySpan(s, line.next);
      case Null(_, _) => EmptySpan(s, line.next);
      case End => EmptySpan(s, line.next);
      case Bulk(_, _, data) => DataIff(s, line.next, Atoi(line.result).value, data, p.next);
      case Chunked(_, _) => ChunksSound(s, start, line.next);
      case Aggregate(_, _, items) => ItemsSound(s, start, line.next, depth + 1, |items|);
      case Streamed(_, _) => StreamSound(s, start, line.next, depth + 1, 0, IsMapKind(kind));
    }
  }

  lemma EmptySpan(s: string, pos: nat)
    requires pos <= |s|
    ensures Spans(s, pos, pos, "")
  {
  }

  lemma {:induction false} ItemsSound(s: string, start: nat, pos: nat, depth: nat, count: nat)
    requires start <= pos <= |s|
    requires ParseItems(s, start, pos, depth, count).Ok?
    ensures var p := ParseItems(s, start, pos, depth, count).value;
            ItemsFit(p.result, pos - start, depth) && Spans(s, pos, p.next, EncodeAll(p.result))
    decreases |s| - pos, 1
  {
    hide At, ParseValue, Fits;
    if count == 0 {
      EmptySpan(s, pos);
    } else {
      var p := ParseItems(s, start, pos, depth, count).value;
      var item := ParseValue(s, start, pos, depth).value;
      ValueSound(s, start, pos, depth);
      ItemsSound(s, start, item.next, depth, count - 1);
      assert p.result[1..] == ParseItems(s, start, item.next, depth, count - 1).value.result;
      SpansConcat(s, pos, item.next, p.next, Encode(p.result[0]), EncodeAll(p.result[1..]));
    }
  }

  /** The bytes of streamed elements and the terminator after them. */
  function EncodeStream(items: seq<Node>): string {
    EncodeAll(items) + EncodeLine('.', "")
  }

  lemma StreamStep(item: Node, rest: seq<Node>)
    ensures EncodeStream([]) == Encode(End)
    ensures EncodeStream([item] + rest) == Encode(item) + EncodeStream(rest)
  {
    assert ([item] + rest)[1..] == rest;
  }

  lemma EndFits(raw: nat, depth: nat)
    requires Fits(End, raw, depth)
    ensures StreamFits([], raw, depth)
  {
  }

  lemma {:induction false} StreamSound(s: string, start: nat, pos: nat, depth: nat, seen: nat, pairs: bool)
    requires start <= pos <= |s|
    requires ParseStream(s, start, pos, depth, seen, pairs).Ok?
    ensures var p := ParseStream(s, start, pos, depth, seen, pairs).value;
            && StreamFits(p.result, pos - start, depth)
            && (seen <= MAX_COLLECTION ==> seen + |p.result| <= MAX_COLLECTION)
            && (pairs ==> (seen + |p.result|) % 2 == 0)
            && Spans(s, pos, p.next, EncodeStream(p.result))
    decreases |s| - pos, 1
  {
    hide At, ParseValue, EncodeStream, Encode, Fits;
    var p := ParseStream(s, start, pos, depth, seen, pairs).value;
    var item := ParseValue(s, start, pos, depth).value;
    ValueSound(s, start, pos, depth);
    if item.result == End {
      StreamStep(End, []);
      EndFits(pos - start, depth);
    } else {
      StreamSound(s, start, item.next, depth, seen + 1, pairs);
      var rest := ParseStream(s, start, item.next, depth, seen + 1, pairs).value.result;
      assert p.result == [item.result] + rest && p.result[1..] == rest;
      StreamStep(item.result, rest);
      SpansConcat(s, pos, item.next, p.next, Encode(item.result), EncodeStream(rest));
    }
  }

  lemma {:induction false} ChunksSound(s: string, start: nat, pos: nat)
    requires start <= pos <= |s|
    ensures ParseChunks(s, start, pos).Ok? ==>
            var p := ParseChunks(s, start, pos).value;
            && ChunksFit(p.result.chunks, p.result.last, pos - start)
            && Spans(s, pos, p.next, EncodeChunks(p.result.chunks, p.result.last))
    decreases |s| - pos
  {
    hide At, ParseChunk, Atoi, OneLine;
    if ParseChunks(s, start, pos).Err? {
      return;
    }
    var p := ParseChunks(s, start, pos).value;
    var chunk := ParseChunk(s, start, pos).value;
    ChunkSound(s, start, pos);
    if chunk.result.data != "" {
      ChunksSound(s, start, chunk.next);
      var rest := ParseChunks(s, start, chunk.next).value.result.chunks;
      assert p.result.chunks == [chunk.result] + rest && p.result.chunks[1..] == rest;
      SpansConcat(s, pos, chunk.next, p.next, EncodeChunk(chunk.result), EncodeChunks(rest, p.result.last));
    }
  }

  lemma ChunkSound(s: string, start: nat, pos: nat)
    requires start <= pos <= |s| && ParseChunk(s, start, pos).Ok?
    ensures var p := ParseChunk(s, start, pos).value;
            && LineFits(pos - start, p.result.length) && Atoi(p.result.length) == Some(|p.result.data|)
            && (if p.result.data == "" then Spans(s, pos, p.next, EncodeLine(';', p.result.length))
                else Spans(s, pos, p.next, EncodeChunk(p.result)) && p.next - start <= MAX_FRAME)
  {
    hide At, ReadLine, ReadData, Atoi, OneLine;
    var p := ParseChunk(s, start, pos).value;
    var line := ReadLine(s, start, pos + 1).value;
    LineIff(s, start, pos, line.result, line.next);
    if p.result.data != "" || Atoi(line.result) != Some(0) {
      DataIff(s, line.next, Atoi(line.result).value, p.result.data, p.next);
      SpansConcat(s, pos, line.next, p.next, EncodeLine(';', line.result), p.result.data + CRLF);
    }
  }

  // ----- completeness --------------------------------------------------------------------------

  lemma {:induction false} ValueComplete(s: string, start: nat, pos: nat, depth: nat, node: Node)
    requires start <= pos
    requires Fits(node, pos - start, depth) && At(s, pos, Encode(node))
    ensures ParseValue(s, start, pos, depth) == Ok(Parsed(node, pos + |Encode(node)|))
    decreases node, 1
  {
    hide At, ReadLine, Encode, ParseBody, OneLine, Atoi;
    HeadAndRest(node);
    var (kind, text) := Head(node);
    var mid := HeadLine(s, start, pos, kind, text, Rest(node));
    BodyComplete(s, start, pos, depth, node, mid);
  }

  lemma {:induction false} BodyComplete(s: string, start: nat, pos: nat, depth: nat, node: Node, mid: nat)
    requires start <= pos && mid == pos + |Head(node).1| + 3 <= |s|
    requires Fits(node, pos - start, depth) && At(s, mid, Rest(node))
    ensures ParseBody(s, start, pos, depth, Head(node).0, Parsed(Head(node).1, mid))
         == Ok(Parsed(node, mid + |Rest(node)|))
    decreases node, 0
  {
    hide At, OneLine, Atoi, ReadData, Encode, EncodeAll, EncodeChunks;
    hide ItemsFit, StreamFits, ChunksFit, ParseItems, ParseStream, ParseChunks;
    QuestionIsNoNumber();
    match node {
      case Line(_, _) =>
      case Null(_, _) =>
      case End =>
      case Bulk(_, _, text) => DataIff(s, mid, |text|, text, mid + |text| + 2);
      case Chunked(chunks, last) => ChunksComplete(s, start, mid, chunks, last);
      case Aggregate(_, _, items) => ItemsComplete(s, start, mid, depth + 1, items);
      case Streamed(kind, items) => StreamComplete(s, start, mid, depth + 1, 0, IsMapKind(kind), items);
    }
  }

  lemma QuestionIsNoNumber()
    ensures Atoi("?").None?
  {
    assert !IsDigit("?"[0]);
  }

  /** Reading the first line of a node that starts with it. */
  lemma HeadLine(s: string, start: nat, pos: nat, kind: char, text: string, tail: string) returns (mid: nat)
    requires start <= pos && LineFits(pos - start, text)
    requires At(s, pos, EncodeLine(kind, text) + tail)
    ensures mid == pos + |text| + 3 <= |s| && s[pos] == kind
    ensures ReadLine(s, start, pos + 1) == Ok(Parsed(text, mid))
    ensures At(s, mid, tail)
  {
    mid := pos + |text| + 3;
    AtConcat(s, pos, EncodeLine(kind, text), tail);
    assert s[pos] == s[pos..mid][0] == kind;
    LineIff(s, start, pos, text, mid);
  }

  lemma {:induction false} ItemsComplete(s: string, start: nat, pos: nat, depth: nat, items: seq<Node>)
    requires start <= pos
    requires ItemsFit(items, pos - start, depth) && At(s, pos, EncodeAll(items))
    ensures ParseItems(s, start, pos, depth, |items|) == Ok(Parsed(items, pos + |EncodeAll(items)|))
    decreases items, 0
  {
    hide At, ReadLine, ReadData, Atoi, FindNewline, OneLine;
    if items != [] {
      AtConcat(s, pos, Encode(items[0]), EncodeAll(items[1..]));
      ValueComplete(s, start, pos, depth, items[0]);
      ItemsComplete(s, start, pos + |Encode(items[0])|, depth, items[1..]);
      assert [items[0]] + items[1..] == items;
    }
  }

  lemma {:induction false} StreamComplete(s: string, start: nat, pos: nat, depth: nat, seen: nat, pairs: bool,
                        items: seq<Node>)
    requires start <= pos
    requires StreamFits(items, pos - start, depth) && At(s, pos, EncodeStream(items))
    requires seen + |items| <= MAX_COLLECTION
    requires pairs ==> (seen + |items|) % 2 == 0
    ensures ParseStream(s, start, pos, depth, seen, pairs)
         == Ok(Parsed(items, pos + |EncodeStream(items)|))
    decreases items, 0
  {
    hide At, ParseValue, EncodeStream;
    if items == [] {
      StreamStep(End, []);
      EndComplete(s, start, pos, depth);
    } else {
      assert [items[0]] + items[1..] == items;
      StreamStep(items[0], items[1..]);
      AtConcat(s, pos, Encode(items[0]), EncodeStream(items[1..]));
      ValueComplete(s, start, pos, depth, items[0]);
      StreamComplete(s, start, pos + |Encode(items[0])|, depth, seen + 1, pairs, items[1..]);
    }
  }

  lemma EndComplete(s: string, start: nat, pos: nat, depth: nat)
    requires start <= pos && depth <= MAX_DEPTH
    requires LineFits(pos - start, "") && At(s, pos, EncodeLine('.', ""))
    ensures ParseValue(s, start, pos, depth) == Ok(Parsed(End, pos + 3))
  {
    hide At, ReadLine;
    assert EncodeLine('.', "") + "" == EncodeLine('.', "");
    var mid := HeadLine(s, start, pos, '.', "", "");
    assert ParseBody(s, start, pos, depth, '.', Parsed("", mid)) == Ok(Parsed(End, mid));
  }

  lemma {:induction false} ChunksComplete(s: string, start: nat, pos: nat, chunks: seq<Chunk>, last: string)
    requires start <= pos
    requires ChunksFit(chunks, last, pos - start) && At(s, pos, EncodeChunks(chunks, last))
    ensures ParseChunks(s, start, pos) == Ok(Parsed(Chunked(chunks, last), pos + |EncodeChunks(chunks, last)|))
    decreases chunks
  {
    hide At, ReadLine, ReadData, Atoi, OneLine;
    if chunks == [] {
      assert EncodeLine(';', last) + "" == EncodeLine(';', last);
      var mid := HeadLine(s, start, pos, ';', last, "");
      assert ParseChunk(s, start, pos) == Ok(Parsed(Chunk(last, ""), mid));
    } else {
      var chunk := chunks[0];
      AtConcat(s, pos, EncodeChunk(chunk), EncodeChunks(chunks[1..], last));
      var mid := HeadLine(s, start, pos, ';', chunk.length, chunk.data + CRLF);
      DataIff(s, mid, |chunk.data|, chunk.data, pos + |EncodeChunk(chunk)|);
      assert ParseChunk(s, start, pos) == Ok(Parsed(chunk, pos + |EncodeChunk(chunk)|));
      ChunksComplete(s, start, pos + |EncodeChunk(chunk)|, chunks[1..], last);
      assert [chunk] + chunks[1..] == chunks;
    }
  }

  // ----- main results --------------------------------------------------------------------------

  /** The reader accepts a frame exactly when the input starts with a derivation within the limits, and then consumes exactly it. */
  lemma FrameAcceptedIff(s: string, node: Node, next: nat)
    ensures ParseFrame(s) == Ok(Parsed(node, next))
       <==> Fits(node, 0, 0) && Encode(node) <= s && next == |Encode(node)|
  {
    hide ParseValue, Fits, Encode;
    if ParseFrame(s) == Ok(Parsed(node, next)) {
      ValueSound(s, 0, 0, 0);
    }
    if Fits(node, 0, 0) && Encode(node) <= s {
      ValueComplete(s, 0, 0, 0, node);
    }
  }

  /** No accepted frame is a proper prefix of another reading of the same bytes: the derivation is unique. */
  lemma FrameUnique(s: string, a: Node, b: Node)
    requires Fits(a, 0, 0) && Encode(a) <= s
    requires Fits(b, 0, 0) && Encode(b) <= s
    ensures a == b
  {
    FrameAcceptedIff(s, a, |Encode(a)|);
    FrameAcceptedIff(s, b, |Encode(b)|);
  }

  /** Nesting never exceeds 64 levels, and only a definite bulk may be longer than 64 MiB. */
  lemma FrameBounds(s: string)
    requires ParseFrame(s).Ok?
    ensures var p := ParseFrame(s).value;
            && ValueDepth(Meaning(p.result)) <= 64
            && p.next <= (if p.result.Bulk? then 128 * 1024 * 1024 + 2 else 64 * 1024 * 1024)
  {
    var p := ParseFrame(s).value;
    FrameAcceptedIff(s, p.result, p.next);
    NodeBounds(p.result, 0, 0);
  }

  lemma {:induction false} NodeBounds(node: Node, raw: nat, depth: nat)
    requires Fits(node, raw, depth)
    ensures depth + ValueDepth(Meaning(node)) <= MAX_DEPTH
    ensures raw + |Encode(node)| <= (if node.Bulk? then 2 * MAX_FRAME + 2 else MAX_FRAME)
    decreases node, 1
  {
    match node {
      case Line(_, _) =>
      case Bulk(_, _, _) =>
      case Null(_, _) =>
      case End =>
      case Chunked(chunks, last) => ChunksBounds(chunks, last, raw + 4);
      case Aggregate(kind, count, items) => ItemsBounds(items, raw + |EncodeLine(kind, count)|, depth + 1);
      case Streamed(_, items) => StreamBounds(items, raw + 4, depth + 1);
    }
  }

  lemma {:induction false} ItemsBounds(items: seq<Node>, raw: nat, depth: nat)
    requires ItemsFit(items, raw, depth)
    ensures items != [] ==> depth + ValueDepthAll(MeaningAll(items)) <= MAX_DEPTH
    ensures items != [] ==> raw + |EncodeAll(items)| <= MAX_FRAME
    decreases items, 0
  {
    if items != [] {
      NodeBounds(items[0], raw, depth);
      ItemsBounds(items[1..], raw + |Encode(items[0])|, depth);
      assert MeaningAll(items)[1..] == MeaningAll(items[1..]);
    }
  }

  lemma {:induction false} StreamBounds(items: seq<Node>, raw: nat, depth: nat)
    requires StreamFits(items, raw, depth)
    ensures depth + ValueDepthAll(MeaningAll(items)) <= MAX_DEPTH
    ensures raw + |EncodeAll(items)| + 3 <= MAX_FRAME
    decreases items, 0
  {
    if items != [] {
      NodeBounds(items[0], raw, depth);
      StreamBounds(items[1..], raw + |Encode(items[0])|, depth);
      assert MeaningAll(items)[1..] == MeaningAll(items[1..]);
    }
  }

  lemma {:induction false} ChunksBounds(chunks: seq<Chunk>, last: string, raw: nat)
    requires ChunksFit(chunks, last, raw)
    ensures raw + |EncodeChunks(chunks, last)| <= MAX_FRAME
    ensures |Joined(chunks)| <= MAX_FRAME
    ensures |Joined(chunks)| <= |EncodeChunks(chunks, last)|
  {
    if chunks != [] {
      ChunksBounds(chunks[1..], last, raw + |EncodeChunk(chunks[0])|);
    }
  }
}

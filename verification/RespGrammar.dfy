/**
 The RESP grammar as data: a Node is one derivation of a frame, with the length
 texts that were on the wire, so that definite, null and streamed forms, and
 unusual spellings of a length such as "+3", are all distinct derivations.
 A byte is a character; lengths count bytes.
 */
module RespGrammar {
  import opened Wrappers
  import opened Decimal

  const MAX_FRAME: nat := 64 * 1024 * 1024
  const MAX_COLLECTION: nat := 1048576
  const MAX_DEPTH: nat := 64
  const CRLF: string := "\r\n"

  /** What the proxy keeps of a frame. */
  datatype Value = Value(kind: char, text: string, items: seq<Value>)

  datatype Chunk = Chunk(length: string, data: string)

  datatype Node =
    | Line(kind: char, text: string)
    | Bulk(kind: char, length: string, text: string)
    | Null(kind: char, length: string)
    | Chunked(chunks: seq<Chunk>, last: string)
    | Aggregate(kind: char, count: string, items: seq<Node>)
    | Streamed(kind: char, items: seq<Node>)
    | End

  predicate IsLineKind(c: char) {
    c == '+' || c == '-' || c == ':' || c == ',' || c == '(' || c == '#' || c == '_'
  }

  predicate IsBulkKind(c: char) {
    c == '$' || c == '!' || c == '='
  }

  predicate IsArrayKind(c: char) {
    c == '*' || c == '~' || c == '>'
  }

  predicate IsMapKind(c: char) {
    c == '%' || c == '|'
  }

  predicate OneLine(text: string) {
    forall i :: 0 <= i < |text| ==> text[i] != '\n'
  }

  // ----- meaning and encoding ------------------------------------------------------------------

  function Meaning(node: Node): Value
    decreases node, 1
  {
    match node
    case Line(kind, text) => Value(kind, text, [])
    case Bulk(kind, _, text) => Value(kind, text, [])
    case Null(kind, _) => Value(kind, "null", [])
    case Chunked(chunks, _) => Value('$', Joined(chunks), [])
    case Aggregate(kind, _, items) => Value(kind, "", MeaningAll(items))
    case Streamed(kind, items) => Value(kind, "", MeaningAll(items))
    case End => Value('.', "", [])
  }

  function MeaningAll(items: seq<Node>): (values: seq<Value>)
    ensures |values| == |items|
    decreases items, 0
  {
    if items == [] then [] else [Meaning(items[0])] + MeaningAll(items[1..])
  }

  function Joined(chunks: seq<Chunk>): string {
    if chunks == [] then "" else chunks[0].data + Joined(chunks[1..])
  }

  function EncodeLine(kind: char, text: string): string {
    [kind] + text + CRLF
  }

  function Encode(node: Node): (bytes: string)
    ensures |bytes| >= 3
    decreases node, 1
  {
    match node
    case Line(kind, text) => EncodeLine(kind, text)
    case Bulk(kind, length, text) => EncodeLine(kind, length) + (text + CRLF)
    case Null(kind, length) => EncodeLine(kind, length)
    case Chunked(chunks, last) => EncodeLine('$', "?") + EncodeChunks(chunks, last)
    case Aggregate(kind, count, items) => EncodeLine(kind, count) + EncodeAll(items)
    case Streamed(kind, items) => EncodeLine(kind, "?") + (EncodeAll(items) + EncodeLine('.', ""))
    case End => EncodeLine('.', "")
  }

  function EncodeAll(items: seq<Node>): string
    decreases items, 0
  {
    if items == [] then "" else Encode(items[0]) + EncodeAll(items[1..])
  }

  function EncodeChunk(chunk: Chunk): string {
    EncodeLine(';', chunk.length) + (chunk.data + CRLF)
  }

  function EncodeChunks(chunks: seq<Chunk>, last: string): string {
    if chunks == [] then EncodeLine(';', last) else EncodeChunk(chunks[0]) + EncodeChunks(chunks[1..], last)
  }

  // ----- limits --------------------------------------------------------------------------------

  /** A line of a prefix byte and text, read when `raw` bytes of the frame are already kept. */
  predicate LineFits(raw: nat, text: string) {
    OneLine(text) && raw + 1 + |text| + 2 <= 64 * 1024 * 1024
  }

  /** The derivations the proxy accepts when `raw` bytes of the frame precede the node. */
  predicate Fits(node: Node, raw: nat, depth: nat)
    decreases node, 1
  {
    depth <= 64 &&
    match node
    case Line(kind, text) => IsLineKind(kind) && LineFits(raw, text)
    case Bulk(kind, length, text) =>
      IsBulkKind(kind) && LineFits(raw, length) && Atoi(length) == Some(|text|) && |text| <= MAX_FRAME
    case Null(kind, length) =>
      && (IsBulkKind(kind) || IsArrayKind(kind) || IsMapKind(kind))
      && LineFits(raw, length) && Atoi(length).Some? && Atoi(length).value < 0
    case Chunked(chunks, last) => LineFits(raw, "?") && ChunksFit(chunks, last, raw + 4)
    case Aggregate(kind, count, items) =>
      && LineFits(raw, count)
      && (if IsMapKind(kind) then |items| % 2 == 0 && Atoi(count) == Some(|items| / 2)
          else IsArrayKind(kind) && Atoi(count) == Some(|items|))
      && |items| <= 1048576
      && ItemsFit(items, raw + |EncodeLine(kind, count)|, depth + 1)
    case Streamed(kind, items) =>
      && (IsArrayKind(kind) || IsMapKind(kind)) && LineFits(raw, "?")
      && (IsMapKind(kind) ==> |items| % 2 == 0)
      && |items| <= 1048576
      && StreamFits(items, raw + 4, depth + 1)
    case End => LineFits(raw, "")
  }

  /** After every element the whole frame is checked against the limit. */
  predicate ItemsFit(items: seq<Node>, raw: nat, depth: nat)
    decreases items, 0
  {
    items == [] ||
    var next := raw + |Encode(items[0])|;
    Fits(items[0], raw, depth) && next <= MAX_FRAME && ItemsFit(items[1..], next, depth)
  }

  predicate StreamFits(items: seq<Node>, raw: nat, depth: nat)
    decreases items, 0
  {
    if items == [] then depth <= 64 && LineFits(raw, "")
    else
      var next := raw + |Encode(items[0])|;
      && items[0] != End && Fits(items[0], raw, depth) && next <= MAX_FRAME
      && StreamFits(items[1..], next, depth)
  }

  predicate ChunksFit(chunks: seq<Chunk>, last: string, raw: nat) {
    if chunks == [] then LineFits(raw, last) && Atoi(last) == Some(0)
    else
      var next := raw + |EncodeChunk(chunks[0])|;
      && LineFits(raw, chunks[0].length) && Atoi(chunks[0].length) == Some(|chunks[0].data|)
      && chunks[0].data != "" && next <= MAX_FRAME
      && ChunksFit(chunks[1..], last, next)
  }

  /** How deeply the kept elements of a value nest. */
  function ValueDepth(v: Value): nat
    decreases v, 1
  {
    if v.items == [] then 0 else 1 + ValueDepthAll(v.items)
  }

  function ValueDepthAll(items: seq<Value>): nat
    decreases items, 0
  {
    if items == [] then 0
    else if ValueDepth(items[0]) > ValueDepthAll(items[1..]) then ValueDepth(items[0])
    else ValueDepthAll(items[1..])
  }
}

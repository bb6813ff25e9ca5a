/** What each form of a frame reads as, spelled out byte by byte. */
module RespMeaning {
  import opened Wrappers
  import opened Decimal
  import opened RespGrammar
  import opened RespParser
  import opened RespTheorems
  import opened RespPrinting

  const MIB: nat := 1024 * 1024

  lemma ReadsFrame(node: Node, suffix: string)
    requires Fits(node, 0, 0)
    ensures ReadValue(Encode(node) + suffix) == Ok(Parsed(Meaning(node), |Encode(node)|))
  {
    hide Fits, Encode, Meaning;
    FrameAcceptedIff(Encode(node) + suffix, node, |Encode(node)|);
  }

  // ----- forms without elements ----------------------------------------------------------------

  /** A line of any of its seven kinds is its text. */
  lemma LineReads(kind: char, text: string, suffix: string)
    requires kind in "+-:,(#_" && '\n' !in text && |text| + 3 <= 64 * MIB
    ensures ReadValue([kind] + text + "\r\n" + suffix) == Ok(Parsed(Value(kind, text, []), |text| + 3))
  {
    var node := Line(kind, text);
    assert Encode(node) == [kind] + text + "\r\n";
    ReadsFrame(node, suffix);
  }

  /** A bulk of any of its three kinds is the bytes its length announces, whatever they are. */
  lemma BulkReads(kind: char, text: string, suffix: string)
    requires kind in "$!=" && |text| <= 64 * MIB
    ensures var raw := [kind] + Itoa(|text|) + "\r\n" + (text + "\r\n");
            ReadValue(raw + suffix) == Ok(Parsed(Value(kind, text, []), |raw|))
  {
    hide Itoa, Atoi;
    var node := Bulk(kind, Itoa(|text|), text);
    LengthLine(|text|);
    ShortLength(|text|);
    assert Encode(node) == [kind] + Itoa(|text|) + "\r\n" + (text + "\r\n");
    ReadsFrame(node, suffix);
  }

  /** With any negative length or count, however spelled, a bulk or aggregate reads as the text "null". */
  lemma NullReads(kind: char, text: string, n: int, suffix: string)
    requires kind in "$!=*~>%|" && Spells(text, n) && -0x8000_0000_0000_0000 <= n < 0 && |text| + 3 <= 64 * MIB
    ensures ReadValue([kind] + text + "\r\n" + suffix) == Ok(Parsed(Value(kind, "null", []), |text| + 3))
  {
    hide Atoi, Spells;
    var node := Null(kind, text);
    AtoiIff(text, n);
    NumberIsOneLine(text);
    assert Encode(node) == [kind] + text + "\r\n";
    ReadsFrame(node, suffix);
  }

  lemma NumberIsOneLine(text: string)
    requires Atoi(text).Some?
    ensures '\n' !in text
  {
    hide DigitsValue;
    var digits := if text[0] == '-' || text[0] == '+' then text[1..] else text;
    assert forall i :: 0 <= i < |digits| ==> IsDigit(digits[i]);
    assert forall i :: 1 <= i < |text| ==> IsDigit(text[i]);
  }

  /** No other first byte is accepted. */
  lemma FirstByte(s: string)
    requires ReadValue(s).Ok?
    ensures s != "" && s[0] in "+-:,(#_$!=*~>%|."
  {
    var p := ParseFrame(s).value;
    FrameAcceptedIff(s, p.result, p.next);
    assert s[0] == Encode(p.result)[0];
  }

  // ----- elements ------------------------------------------------------------------------------

  /** What fits somewhere fits with fewer bytes before it and less deep. */
  lemma {:induction false} FitsEarlier(node: Node, raw: nat, depth: nat, raw2: nat, depth2: nat)
    requires Fits(node, raw, depth) && raw2 <= raw && depth2 <= depth
    ensures Fits(node, raw2, depth2)
    decreases node, 1
  {
    hide OneLine, Atoi, Encode;
    match node
    case Line(_, _) =>
    case Bulk(_, _, _) =>
    case Null(_, _) =>
    case End =>
    case Chunked(chunks, last) => ChunksFitEarlier(chunks, last, raw + 4, raw2 + 4);
    case Aggregate(kind, count, items) =>
      var line := |EncodeLine(kind, count)|;
      ItemsFitEarlier(items, raw + line, depth + 1, raw2 + line, depth2 + 1);
    case Streamed(_, items) => StreamFitsEarlier(items, raw + 4, depth + 1, raw2 + 4, depth2 + 1);
  }

  lemma {:induction false} ItemsFitEarlier(items: seq<Node>, raw: nat, depth: nat, raw2: nat, depth2: nat)
    requires ItemsFit(items, raw, depth) && raw2 <= raw && depth2 <= depth
    ensures ItemsFit(items, raw2, depth2)
    decreases items, 0
  {
    if items != [] {
      FitsEarlier(items[0], raw, depth, raw2, depth2);
      ItemsFitEarlier(items[1..], raw + |Encode(items[0])|, depth, raw2 + |Encode(items[0])|, depth2);
    }
  }

  lemma {:induction false} StreamFitsEarlier(items: seq<Node>, raw: nat, depth: nat, raw2: nat, depth2: nat)
    requires StreamFits(items, raw, depth) && raw2 <= raw && depth2 <= depth
    ensures StreamFits(items, raw2, depth2)
    decreases items, 0
  {
    if items != [] {
      FitsEarlier(items[0], raw, depth, raw2, depth2);
      StreamFitsEarlier(items[1..], raw + |Encode(items[0])|, depth, raw2 + |Encode(items[0])|, depth2);
    }
  }

  lemma {:induction false} ChunksFitEarlier(chunks: seq<Chunk>, last: string, raw: nat, raw2: nat)
    requires ChunksFit(chunks, last, raw) && raw2 <= raw
    ensures ChunksFit(chunks, last, raw2)
    decreases chunks
  {
    hide OneLine, Atoi;
    if chunks != [] {
      ChunksFitEarlier(chunks[1..], last, raw + |EncodeChunk(chunks[0])|, raw2 + |EncodeChunk(chunks[0])|);
    }
  }

  lemma {:induction false} ItemFitsAlone(items: seq<Node>, raw: nat, depth: nat, i: nat)
    requires (ItemsFit(items, raw, depth) || StreamFits(items, raw, depth)) && i < |items|
    ensures Fits(items[i], 0, 0) && MeaningAll(items)[i] == Meaning(items[i])
    decreases i
  {
    hide Fits, Encode, Meaning;
    if i == 0 {
      FitsEarlier(items[0], raw, depth, 0, 0);
    } else {
      ItemFitsAlone(items[1..], raw + |Encode(items[0])|, depth, i - 1);
    }
  }

  /** An aggregate's value has one element for each of its frames: what that frame reads as alone. */
  predicate HoldsElements(v: Value, kind: char, items: seq<Node>) {
    && v.kind == kind && v.text == "" && |v.items| == |items|
    && forall i :: 0 <= i < |items| ==> ReadValue(Encode(items[i])) == Ok(Parsed(v.items[i], |Encode(items[i])|))
  }

  lemma ElementsHeld(kind: char, items: seq<Node>, raw: nat, depth: nat)
    requires ItemsFit(items, raw, depth) || StreamFits(items, raw, depth)
    ensures HoldsElements(Value(kind, "", MeaningAll(items)), kind, items)
  {
    hide Fits, Encode, Meaning, MeaningAll, ItemsFit, StreamFits, ReadValue;
    forall i | 0 <= i < |items|
      ensures ReadValue(Encode(items[i])) == Ok(Parsed(MeaningAll(items)[i], |Encode(items[i])|))
    {
      ItemFitsAlone(items, raw, depth, i);
      ReadsFrame(items[i], "");
      assert Encode(items[i]) + "" == Encode(items[i]);
    }
  }

  /** A counted aggregate, its elements doubled for a map, holds exactly its elements in order. */
  lemma CountedReads(kind: char, items: seq<Node>, suffix: string)
    requires kind in "*~>%|"
    requires Fits(Aggregate(kind, Itoa(if kind in "%|" then |items| / 2 else |items|), items), 0, 0)
    ensures var raw := [kind] + Itoa(if kind in "%|" then |items| / 2 else |items|) + "\r\n" + EncodeAll(items);
            && ReadValue(raw + suffix).Ok? && ReadValue(raw + suffix).value.next == |raw|
            && HoldsElements(ReadValue(raw + suffix).value.result, kind, items)
  {
    hide HoldsElements, Itoa, ItemsFit, StreamFits, ReadValue, MeaningAll, EncodeAll;
    var count := Itoa(if kind in "%|" then |items| / 2 else |items|);
    var node := Aggregate(kind, count, items);
    ReadsFrame(node, suffix);
    ElementsHeld(kind, items, |EncodeLine(kind, count)|, 1);
    assert Encode(node) == [kind] + count + "\r\n" + EncodeAll(items);
  }

  /** A streamed aggregate, closed by its end marker, holds exactly the elements before it in order. */
  lemma StreamedReads(kind: char, items: seq<Node>, suffix: string)
    requires kind in "*~>%|" && Fits(Streamed(kind, items), 0, 0)
    ensures var raw := [kind] + "?\r\n" + (EncodeAll(items) + ".\r\n");
            && ReadValue(raw + suffix).Ok? && ReadValue(raw + suffix).value.next == |raw|
            && HoldsElements(ReadValue(raw + suffix).value.result, kind, items)
  {
    hide HoldsElements, ItemsFit, StreamFits, ReadValue, MeaningAll, EncodeAll;
    var node := Streamed(kind, items);
    ReadsFrame(node, suffix);
    ElementsHeld(kind, items, 4, 1);
    assert Encode(node) == [kind] + "?\r\n" + (EncodeAll(items) + ".\r\n");
  }

  lemma SameElements(a: Value, b: Value, kind: char, items: seq<Node>)
    requires HoldsElements(a, kind, items) && HoldsElements(b, kind, items)
    ensures a == b
  {
    hide ReadValue, Encode;
    forall i | 0 <= i < |items| ensures a.items[i] == b.items[i] {
      assert ReadValue(Encode(items[i])) == Ok(Parsed(a.items[i], |Encode(items[i])|));
    }
    assert a.items == b.items;
  }

  /** Streamed or counted, the same elements read as the same value. */
  lemma StreamedReadsAsCounted(kind: char, items: seq<Node>, suffix: string)
    requires kind in "*~>%|" && Fits(Streamed(kind, items), 0, 0)
    requires Fits(Aggregate(kind, Itoa(if kind in "%|" then |items| / 2 else |items|), items), 0, 0)
    ensures var streamed := [kind] + "?\r\n" + (EncodeAll(items) + ".\r\n");
            var counted := [kind] + Itoa(if kind in "%|" then |items| / 2 else |items|) + "\r\n" + EncodeAll(items);
            && ReadValue(streamed + suffix).Ok? && ReadValue(counted + suffix).Ok?
            && ReadValue(streamed + suffix).value.result == ReadValue(counted + suffix).value.result
            && HoldsElements(ReadValue(counted + suffix).value.result, kind, items)
  {
    hide HoldsElements, Fits, ReadValue, EncodeAll, Itoa;
    StreamedReads(kind, items, suffix);
    CountedReads(kind, items, suffix);
    var streamed := [kind] + "?\r\n" + (EncodeAll(items) + ".\r\n");
    var counted := [kind] + Itoa(if kind in "%|" then |items| / 2 else |items|) + "\r\n" + EncodeAll(items);
    SameElements(ReadValue(streamed + suffix).value.result, ReadValue(counted + suffix).value.result, kind, items);
  }

  /** A streamed string reads as its chunks put together, each behind its own length line. */
  lemma {:induction false} ChunksRead(chunks: seq<string>, suffix: string)
    requires (forall i :: 0 <= i < |chunks| ==> chunks[i] != "") && |ChunkLines(chunks)| + 4 <= 64 * MIB
    ensures var raw := "$?\r\n" + ChunkLines(chunks);
            ReadValue(raw + suffix) == Ok(Parsed(Value('$', Together(chunks), []), |raw|))
  {
    hide Fits, Itoa, Atoi;
    var nodes := ChunkNodes(chunks);
    ChunkNodesFit(chunks, 4);
    var node := Chunked(nodes, "0");
    assert Encode(node) == "$?\r\n" + ChunkLines(chunks);
    assert Fits(node, 0, 0) by {
      QuestionFits(nodes);
    }
    ReadsFrame(node, suffix);
  }

  lemma QuestionFits(chunks: seq<Chunk>)
    requires ChunksFit(chunks, "0", 4)
    ensures Fits(Chunked(chunks, "0"), 0, 0)
  {
    hide ChunksFit;
  }

  function ChunkLines(chunks: seq<string>): string {
    if chunks == [] then ";0\r\n" else ";" + Itoa(|chunks[0]|) + "\r\n" + (chunks[0] + "\r\n") + ChunkLines(chunks[1..])
  }

  function Together(chunks: seq<string>): string {
    if chunks == [] then "" else chunks[0] + Together(chunks[1..])
  }

  function ChunkNodes(chunks: seq<string>): seq<Chunk> {
    if chunks == [] then [] else [Chunk(Itoa(|chunks[0]|), chunks[0])] + ChunkNodes(chunks[1..])
  }

  lemma {:induction false} ChunkNodesFit(chunks: seq<string>, raw: nat)
    requires (forall i :: 0 <= i < |chunks| ==> chunks[i] != "") && raw + |ChunkLines(chunks)| <= 64 * MIB
    ensures ChunksFit(ChunkNodes(chunks), "0", raw)
    ensures EncodeChunks(ChunkNodes(chunks), "0") == ChunkLines(chunks) && Joined(ChunkNodes(chunks)) == Together(chunks)
    decreases |chunks|
  {
    hide Itoa, Atoi;
    if chunks == [] {
      ZeroIsRead();
    } else {
      var nodes := ChunkNodes(chunks);
      assert nodes[1..] == ChunkNodes(chunks[1..]);
      LengthLine(|chunks[0]|);
      ChunkNodesFit(chunks[1..], raw + |EncodeChunk(nodes[0])|);
    }
  }

  lemma ZeroIsRead()
    ensures Atoi("0") == Some(0) && OneLine("0")
  {
    AtoiItoa(0);
    assert Itoa(0) == "0";
  }
}

/** Printing values in definite-length form, and the round trip through the reader. */
module RespPrinting {
  import opened Wrappers
  import opened Decimal
  import opened RespGrammar
  import opened Streams
  import opened RespParser
  import opened RespTheorems

  predicate IsAggregateKind(c: char) {
    IsArrayKind(c) || IsMapKind(c)
  }

  /** The values a frame can denote. */
  predicate Printable(v: Value)
    decreases v, 1
  {
    if IsLineKind(v.kind) then OneLine(v.text) && v.items == []
    else if IsBulkKind(v.kind) then |v.text| <= MAX_FRAME && v.items == []
    else if IsAggregateKind(v.kind) then
      || (v.text == "null" && v.items == [])
      || (v.text == "" && |v.items| <= MAX_COLLECTION && (IsMapKind(v.kind) ==> |v.items| % 2 == 0)
          && PrintableAll(v.items))
    else v == Value('.', "", [])
  }

  predicate PrintableAll(items: seq<Value>)
    decreases items, 0
  {
    items == [] || (Printable(items[0]) && PrintableAll(items[1..]))
  }

  /** The definite-length derivation of a value, with canonical decimal lengths. */
  function Definite(v: Value): Node
    decreases v, 1
  {
    if IsLineKind(v.kind) then Line(v.kind, v.text)
    else if IsBulkKind(v.kind) then Bulk(v.kind, Itoa(|v.text|), v.text)
    else if IsAggregateKind(v.kind) then
      if v.text == "null" then Null(v.kind, "-1")
      else
        Aggregate(v.kind, Itoa(if IsMapKind(v.kind) then |v.items| / 2 else |v.items|), DefiniteAll(v.items))
    else End
  }

  function DefiniteAll(items: seq<Value>): (nodes: seq<Node>)
    ensures |nodes| == |items|
    decreases items, 0
  {
    if items == [] then [] else [Definite(items[0])] + DefiniteAll(items[1..])
  }

  lemma {:induction false} MeaningOfDefinite(v: Value)
    requires Printable(v)
    ensures Meaning(Definite(v)) == v
    decreases v, 1
  {
    if IsAggregateKind(v.kind) {
      MeaningOfDefiniteAll(v.items);
    }
  }

  lemma {:induction false} MeaningOfDefiniteAll(items: seq<Value>)
    requires PrintableAll(items)
    ensures MeaningAll(DefiniteAll(items)) == items
    decreases items, 0
  {
    if items != [] {
      MeaningOfDefinite(items[0]);
      MeaningOfDefiniteAll(items[1..]);
      assert DefiniteAll(items)[1..] == DefiniteAll(items[1..]);
    }
  }

  lemma {:induction false} DefiniteFits(v: Value, raw: nat, depth: nat)
    requires Printable(v) && depth + ValueDepth(v) <= MAX_DEPTH
    requires raw + |Encode(Definite(v))| <= MAX_FRAME
    ensures Fits(Definite(v), raw, depth)
    decreases v, 1
  {
    hide Atoi, Itoa;
    if IsBulkKind(v.kind) {
      LengthLine(|v.text|);
    } else if IsAggregateKind(v.kind) {
      if v.text == "null" {
        MinusOne();
      } else {
        var count := if IsMapKind(v.kind) then |v.items| / 2 else |v.items|;
        LengthLine(count);
        DefiniteFitsAll(v.items, raw + |EncodeLine(v.kind, Itoa(count))|, depth + 1);
      }
    }
  }

  lemma MinusOne()
    ensures Atoi("-1") == Some(-1) && OneLine("-1")
  {
    assert "-1"[1..] == "1" && DigitsValue("1"[..0]) == 0;
    assert AllDigits("1");
    assert DigitsValue("1") == DigitsValue("1"[..0]) * 10 + 1;
  }

  lemma LengthLine(n: nat)
    requires n <= INT_MAX
    ensures OneLine(Itoa(n)) && Atoi(Itoa(n)) == Some(n)
  {
    ItoaDigits(n);
    AtoiItoa(n);
    assert forall i :: 0 <= i < |Itoa(n)| ==> IsDigit(Itoa(n)[i]);
  }

  lemma {:induction false} DefiniteFitsAll(items: seq<Value>, raw: nat, depth: nat)
    requires PrintableAll(items)
    requires items != [] ==> depth + ValueDepthAll(items) <= MAX_DEPTH
    requires raw + |EncodeAll(DefiniteAll(items))| <= MAX_FRAME
    ensures ItemsFit(DefiniteAll(items), raw, depth)
    decreases items, 0
  {
    if items != [] {
      assert DefiniteAll(items)[1..] == DefiniteAll(items[1..]);
      DefiniteFits(items[0], raw, depth);
      DefiniteFitsAll(items[1..], raw + |Encode(Definite(items[0]))|, depth);
    }
  }

  // ----- every accepted derivation denotes a printable value -----------------------------------

  lemma {:induction false} MeaningPrintable(node: Node, raw: nat, depth: nat)
    requires Fits(node, raw, depth)
    ensures Printable(Meaning(node))
    decreases node, 1
  {
    hide OneLine, Atoi, Encode;
    match node {
      case Line(_, _) =>
      case Bulk(_, _, _) =>
      case Null(_, _) =>
      case End =>
      case Chunked(chunks, last) => ChunksBounds(chunks, last, raw + 4);
      case Aggregate(kind, count, items) =>
        ItemsPrintable(items, raw + |EncodeLine(kind, count)|, depth + 1);
      case Streamed(_, items) => StreamPrintable(items, raw + 4, depth + 1);
    }
  }

  lemma {:induction false} ItemsPrintable(items: seq<Node>, raw: nat, depth: nat)
    requires ItemsFit(items, raw, depth)
    ensures PrintableAll(MeaningAll(items))
    decreases items, 0
  {
    if items != [] {
      MeaningPrintable(items[0], raw, depth);
      ItemsPrintable(items[1..], raw + |Encode(items[0])|, depth);
      assert MeaningAll(items)[1..] == MeaningAll(items[1..]);
    }
  }

  lemma {:induction false} StreamPrintable(items: seq<Node>, raw: nat, depth: nat)
    requires StreamFits(items, raw, depth)
    ensures PrintableAll(MeaningAll(items))
    decreases items, 0
  {
    if items != [] {
      MeaningPrintable(items[0], raw, depth);
      StreamPrintable(items[1..], raw + |Encode(items[0])|, depth);
      assert MeaningAll(items)[1..] == MeaningAll(items[1..]);
    }
  }

  // ----- main results --------------------------------------------------------------------------

  /** The value a frame denotes and how many bytes it took. */
  function ReadValue(s: string): Result<Parsed<Value>, Error> {
    var p :- ParseFrame(s);
    Ok(Parsed(Meaning(p.result), p.next))
  }

  /**
   Reading the definite-length print of a value gives the value and leaves the suffix, for every print
   within the reader's limits; a print of at most 64 MiB whose depth is allowed is (DefiniteFits).
   */
  lemma PrintThenRead(v: Value, suffix: string)
    requires Printable(v) && Fits(Definite(v), 0, 0)
    ensures var text := Encode(Definite(v));
            ReadValue(text + suffix) == Ok(Parsed(v, |text|)) && (text + suffix)[|text|..] == suffix
  {
    FrameAcceptedIff(Encode(Definite(v)) + suffix, Definite(v), |Encode(Definite(v))|);
    MeaningOfDefinite(v);
  }

  /** Whatever form a frame had on the wire, its definite-length form reads as the same value. */
  lemma StreamedReadsAsDefinite(s: string, suffix: string)
    requires ReadValue(s).Ok?
    requires Fits(Definite(ReadValue(s).value.result), 0, 0)
    ensures var v := ReadValue(s).value.result;
            ReadValue(Encode(Definite(v)) + suffix) == Ok(Parsed(v, |Encode(Definite(v))|))
  {
    var p := ParseFrame(s).value;
    FrameAcceptedIff(s, p.result, p.next);
    MeaningPrintable(p.result, 0, 0);
    PrintThenRead(Meaning(p.result), suffix);
  }

  /** Cutting a bulk string into any non-empty chunks does not change what it reads as. */
  lemma ChunkingInvisible(chunks: seq<Chunk>, last: string, suffix: string)
    requires ChunksFit(chunks, last, 4)
    ensures var text := Joined(chunks);
            var streamed := Encode(Chunked(chunks, last));
            && ReadValue(streamed + suffix) == Ok(Parsed(Value('$', text, []), |streamed|))
            && ReadValue(Encode(Definite(Value('$', text, []))) + suffix)
               == Ok(Parsed(Value('$', text, []), |Encode(Definite(Value('$', text, [])))|))
  {
    var node := Chunked(chunks, last);
    FrameAcceptedIff(Encode(node) + suffix, node, |Encode(node)|);
    ChunksBounds(chunks, last, 4);
    BulkFits(Joined(chunks));
    PrintThenRead(Value('$', Joined(chunks), []), suffix);
  }

  /** A bulk string at the top level may be as long as the limit, its length line not counted. */
  lemma BulkFits(text: string)
    requires |text| <= MAX_FRAME
    ensures var v := Value('$', text, []);
            Printable(v) && Fits(Definite(v), 0, 0)
  {
    hide Atoi, Itoa;
    LengthLine(|text|);
    ShortLength(|text|);
  }

  lemma ShortLength(n: nat)
    requires n <= MAX_FRAME
    ensures LineFits(0, Itoa(n))
  {
    ItoaLength(n);
  }
}

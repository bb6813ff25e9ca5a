/** Whole rows and whole parameter lists: null bitmaps, retained parameter types and long data. */
module MysqlRows {
  import opened Wrappers
  import opened Bytes
  import opened Streams
  import opened MysqlPacket
  import opened MysqlBinary
  import MysqlReplies

  // ----- bitmaps -------------------------------------------------------------------------------

  /** The number whose binary digits are `bits`, least significant first. */
  function BitsValue(bits: seq<bool>): (value: nat)
    ensures value < Pow2(|bits|)
  {
    if bits == [] then 0 else (if bits[0] then 1 else 0) + 2 * BitsValue(bits[1..])
  }

  lemma {:induction false} BitOfBits(bits: seq<bool>, index: nat)
    requires index < |bits|
    ensures Bit(BitsValue(bits), index) == bits[index]
  {
    if index > 0 {
      BitOfBits(bits[1..], index - 1);
    }
  }

  function ByteOf(bits: seq<bool>): byte
    requires |bits| == 8
  {
    assert Pow2(4) == 16 && Pow2(8) == 16 * Pow2(4);
    BitsValue(bits)
  }

  predicate Marked(marks: seq<bool>, index: int) {
    0 <= index < |marks| && marks[index]
  }

  /** Eight marks from `base` on; there are none outside the marks. */
  function Window(marks: seq<bool>, base: int): (window: seq<bool>)
    ensures |window| == 8 && forall i :: 0 <= i < 8 ==> window[i] == Marked(marks, base + i)
  {
    seq(8, i => Marked(marks, base + i))
  }

  /** A bitmap of `length` bytes whose bit `i + offset` is mark `i`. */
  function Bitmap(marks: seq<bool>, offset: nat, length: nat): (bitmap: seq<byte>)
    ensures |bitmap| == length
    ensures forall j :: 0 <= j < length ==> bitmap[j] == ByteOf(Window(marks, 8 * j - offset))
  {
    seq(length, j requires 0 <= j < length => ByteOf(Window(marks, 8 * j - offset)))
  }

  lemma BitmapReadsBack(marks: seq<bool>, offset: nat, length: nat, index: nat)
    requires index < |marks| && |marks| + offset <= 8 * length
    ensures (index + offset) / 8 < length && NullAt(Bitmap(marks, offset, length), index + offset) == marks[index]
  {
    hide Bitmap, Bit;
    var j, i := (index + offset) / 8, (index + offset) % 8;
    BitOfBits(Window(marks, 8 * j - offset), i);
    assert 8 * j - offset + i == index;
  }

  // ----- slots ---------------------------------------------------------------------------------

  /** A slot's content: a value without bytes of its own (NULL or long data), or an encoded cell. */
  datatype Item = Bare(value: Value) | Coded(cell: Cell)

  function ItemView(item: Item): Value {
    match item
    case Bare(value) => value
    case Coded(cell) => CellView(cell)
  }

  function Views(items: seq<Item>): (values: seq<Value>)
    ensures |values| == |items|
  {
    if items == [] then [] else [ItemView(items[0])] + Views(items[1..])
  }

  predicate ItemOf(item: Item, t: Type) {
    item.Coded? ==> CellOf(item.cell, t)
  }

  predicate Items(items: seq<Item>, types: seq<Type>) {
    |items| == |types| && forall i :: 0 <= i < |items| ==> ItemOf(items[i], types[i])
  }

  function EncodeItems(items: seq<Item>, types: seq<Type>): seq<byte>
    requires Items(items, types)
  {
    if items == [] then []
    else (if items[0].Coded? then EncodeValue(items[0].cell, types[0]) else []) + EncodeItems(items[1..], types[1..])
  }

  /** A slot that the decoder takes for what the item is. */
  predicate SlotFits(slot: Slot, item: Item, t: Type) {
    match slot
    case NoBytes(value) => value == ItemView(item) && (item.Coded? ==> KindOf(t.code) == NullKind)
    case Encoded => item.Coded?
  }

  lemma {:induction false} ItemsReadBack(data: seq<byte>, offset: nat, types: seq<Type>, slots: seq<Slot>,
                        items: seq<Item>)
    requires Items(items, types) && |slots| == |types|
    requires forall i :: 0 <= i < |items| ==> SlotFits(slots[i], items[i], types[i])
    requires At(data, offset, EncodeItems(items, types)) && offset + |EncodeItems(items, types)| == |data|
    ensures DecodeSlots(data, offset, types, slots) == Ok(Views(items))
    decreases |items|
  {
    hide At, DecodeValue, EncodeValue;
    if items != [] {
      var own := if items[0].Coded? then EncodeValue(items[0].cell, types[0]) else [];
      var rest := EncodeItems(items[1..], types[1..]);
      assert forall i :: 0 <= i < |items| - 1 ==> SlotFits(slots[1..][i], items[1..][i], types[1..][i]);
      AtConcat(data, offset, own, rest);
      if items[0].Coded? {
        ValueReadsBack(data, offset, items[0].cell, types[0]);
        NullHasNoBytes(items[0].cell, types[0]);
      }
      ItemsReadBack(data, offset + |own|, types[1..], slots[1..], items[1..]);
    }
  }

  // ----- cut packets ---------------------------------------------------------------------------

  lemma SliceOfCut(data: seq<byte>, n: nat, a: nat, b: nat)
    requires a <= b <= n <= |data|
    ensures data[..n][a..b] == data[a..b]
  {
  }

  /** What is read from the front of a packet is read from the whole packet. */
  lemma LenencOfCut(data: seq<byte>, n: nat, offset: nat)
    requires offset <= n <= |data| && ReadLenencBytes(data[..n], offset).Ok?
    ensures ReadLenencBytes(data, offset) == ReadLenencBytes(data[..n], offset)
  {
    hide LittleEndian;
    var cut := data[..n];
    var length := ReadLenenc(cut, offset).value;
    if cut[offset] > 0xfb {
      SliceOfCut(data, n, offset + 1, length.next);
    }
    if length.result.Some? {
      SliceOfCut(data, n, length.next, length.next + length.result.value);
    }
  }

  lemma MomentOfCut(data: seq<byte>, n: nat, offset: nat, dateOnly: bool)
    requires offset <= n <= |data|
    ensures DecodeMoment(data[..n], offset, dateOnly).Ok? ==> DecodeMoment(data, offset, dateOnly) == DecodeMoment(data[..n], offset, dateOnly)
  {
    hide LittleEndian;
    if offset < n && n - offset - 1 >= data[offset] {
      if data[offset] >= 4 {
        SliceOfCut(data, n, offset + 1, offset + 3);
      }
      if data[offset] == 11 {
        SliceOfCut(data, n, offset + 8, offset + 12);
      }
    }
  }

  lemma SpanOfCut(data: seq<byte>, n: nat, offset: nat)
    requires offset <= n <= |data|
    ensures DecodeSpan(data[..n], offset).Ok? ==> DecodeSpan(data, offset) == DecodeSpan(data[..n], offset)
  {
    hide LittleEndian;
    if offset < n && n - offset - 1 >= data[offset] {
      if data[offset] >= 8 {
        SliceOfCut(data, n, offset + 2, offset + 6);
      }
      if data[offset] == 12 {
        SliceOfCut(data, n, offset + 9, offset + 13);
      }
    }
  }

  lemma FixedOfCut(data: seq<byte>, n: nat, offset: nat, width: nat)
    requires offset <= n <= |data|
    ensures FixedInteger(data[..n], offset, width).Ok? ==> FixedInteger(data, offset, width) == FixedInteger(data[..n], offset, width)
  {
    hide LittleEndian;
    if n - offset >= width {
      SliceOfCut(data, n, offset, offset + width);
    }
  }

  lemma ValueOfCut(data: seq<byte>, n: nat, offset: nat, t: Type)
    requires offset <= n <= |data| && DecodeValue(data[..n], offset, t).Ok?
    ensures DecodeValue(data, offset, t) == DecodeValue(data[..n], offset, t)
  {
    hide FixedInteger, DecodeMoment, DecodeSpan, ReadLenencBytes, IntegerValue;
    match KindOf(t.code)
    case IntegerKind(width) => FixedOfCut(data, n, offset, width);
    case FloatKind => FixedOfCut(data, n, offset, 4);
    case DoubleKind => FixedOfCut(data, n, offset, 8);
    case DateKind => MomentOfCut(data, n, offset, true);
    case MomentKind => MomentOfCut(data, n, offset, false);
    case TimeKind => SpanOfCut(data, n, offset);
    case TextKind => LenencOfCut(data, n, offset);
    case NullKind =>
    case Unsupported =>
  }

  /** Encoded values that reach beyond the cut cannot be decoded from what is left. */
  lemma {:induction false} CutItemsFail(data: seq<byte>, n: nat, offset: nat, types: seq<Type>, slots: seq<Slot>,
                        items: seq<Item>)
    requires Items(items, types) && |slots| == |types|
    requires forall i :: 0 <= i < |items| ==> SlotFits(slots[i], items[i], types[i])
    requires At(data, offset, EncodeItems(items, types)) && offset + |EncodeItems(items, types)| == |data|
    requires offset <= n < |data|
    ensures DecodeSlots(data[..n], offset, types, slots).Err?
    decreases |items|
  {
    hide At, DecodeValue, EncodeValue;
    if items != [] {
      var own := if items[0].Coded? then EncodeValue(items[0].cell, types[0]) else [];
      assert forall i :: 0 <= i < |items| - 1 ==> SlotFits(slots[1..][i], items[1..][i], types[1..][i]);
      AtConcat(data, offset, own, EncodeItems(items[1..], types[1..]));
      if items[0].Coded? {
        ValueReadsBack(data, offset, items[0].cell, types[0]);
        NullHasNoBytes(items[0].cell, types[0]);
      }
      if slots[0].Encoded? && DecodeValue(data[..n], offset, types[0]).Ok? {
        ValueOfCut(data, n, offset, types[0]);
      }
      if offset + |own| <= n {
        CutItemsFail(data, n, offset + |own|, types[1..], slots[1..], items[1..]);
      }
    }
  }

  lemma {:induction false} CutTextFails(data: seq<byte>, n: nat, offset: nat, values: seq<Option<seq<byte>>>)
    requires TextValues(values) && At(data, offset, EncodeTextRow(values)) && offset + |EncodeTextRow(values)| == |data|
    requires offset <= n < |data|
    ensures DecodeTextRow(data[..n], offset, |values|).Err?
    decreases |values|
  {
    hide At, LenencBytes, ReadLenencBytes;
    if values != [] {
      AtConcat(data, offset, LenencBytes(values[0]), EncodeTextRow(values[1..]));
      LenencBytesReadsBack(data, offset, values[0]);
      if ReadLenencBytes(data[..n], offset).Ok? {
        LenencOfCut(data, n, offset);
        CutTextFails(data, n, offset + |LenencBytes(values[0])|, values[1..]);
      }
    }
  }

  lemma NullHasNoBytes(cell: Cell, t: Type)
    requires CellOf(cell, t)
    ensures KindOf(t.code) == NullKind ==> EncodeValue(cell, t) == []
  {
  }

  // ----- rows ----------------------------------------------------------------------------------

  /** A row's cells; None is NULL. */
  function RowItems(cells: seq<Option<Cell>>): (items: seq<Item>)
    ensures |items| == |cells|
    ensures forall i :: 0 <= i < |items| ==> items[i] == (if cells[i].Some? then Coded(cells[i].value) else Bare(Null))
  {
    seq(|cells|, i requires 0 <= i < |cells| => if cells[i].Some? then Coded(cells[i].value) else Bare(Null))
  }

  function Nulls(cells: seq<Option<Cell>>): (nulls: seq<bool>)
    ensures |nulls| == |cells|
  {
    seq(|cells|, i requires 0 <= i < |cells| => cells[i].None?)
  }

  function EncodeRow(cells: seq<Option<Cell>>, types: seq<Type>): seq<byte>
    requires Items(RowItems(cells), types)
  {
    [0x00] + (Bitmap(Nulls(cells), 2, (|types| + 9) / 8) + EncodeItems(RowItems(cells), types))
  }

  lemma {:induction false} RowSlotAt(bitmap: seq<byte>, types: seq<Type>, from: nat, i: nat)
    requires from <= i < |types| && |bitmap| == (|types| + 9) / 8
    ensures RowSlots(bitmap, types, from)[i - from]
         == if NullAt(bitmap, i + 2) || KindOf(types[i].code) == NullKind then NoBytes(Null) else Encoded
    decreases |types| - from
  {
    hide NullAt;
    if from < i {
      RowSlotAt(bitmap, types, from + 1, i);
    }
  }

  /** Every row of every column list reads back, whatever its pattern of NULLs. */
  lemma RowReadsBack(cells: seq<Option<Cell>>, types: seq<Type>)
    requires Items(RowItems(cells), types)
    ensures DecodeRow(EncodeRow(cells, types), types) == Ok(Views(RowItems(cells)))
  {
    hide Bitmap, NullAt, EncodeItems, DecodeSlots, RowSlots;
    var items, length := RowItems(cells), (|types| + 9) / 8;
    var payload, bitmap := EncodeRow(cells, types), Bitmap(Nulls(cells), 2, (|types| + 9) / 8);
    assert payload[1..1 + length] == bitmap;
    assert payload[1 + length..] == EncodeItems(items, types);
    var slots := RowSlots(bitmap, types, 0);
    forall i | 0 <= i < |types| ensures SlotFits(slots[i], items[i], types[i]) {
      RowSlotAt(bitmap, types, 0, i);
      BitmapReadsBack(Nulls(cells), 2, length, i);
    }
    ItemsReadBack(payload, 1 + length, types, slots, items);
  }

  /** The proxy decodes what it captured of a row: it is recovered exactly when all of it was. */
  lemma CapturedRowReadsBackIff(cells: seq<Option<Cell>>, types: seq<Type>)
    requires Items(RowItems(cells), types)
    ensures DecodeRow(Prefix(EncodeRow(cells, types)), types) == Ok(Views(RowItems(cells)))
       <==> |EncodeRow(cells, types)| <= 256 * 1024
  {
    hide Bitmap, NullAt, EncodeItems, DecodeSlots, RowSlots, Views;
    RowReadsBack(cells, types);
    var items, length := RowItems(cells), (|types| + 9) / 8;
    var payload, bitmap := EncodeRow(cells, types), Bitmap(Nulls(cells), 2, (|types| + 9) / 8);
    if |payload| > CAPTURE_LIMIT && 1 + length <= CAPTURE_LIMIT {
      assert payload[..CAPTURE_LIMIT][1..1 + length] == payload[1..1 + length] == bitmap;
      assert payload[1 + length..] == EncodeItems(items, types);
      var slots := RowSlots(bitmap, types, 0);
      forall i | 0 <= i < |types| ensures SlotFits(slots[i], items[i], types[i]) {
        RowSlotAt(bitmap, types, 0, i);
        BitmapReadsBack(Nulls(cells), 2, length, i);
      }
      CutItemsFail(payload, CAPTURE_LIMIT, 1 + length, types, slots, items);
    }
  }

  // ----- text rows -----------------------------------------------------------------------------

  function DecodeTextRow(payload: seq<byte>, offset: nat, columns: nat): Result<seq<Option<seq<byte>>>, Failure>
    requires offset <= |payload|
    decreases columns
  {
    if columns == 0 then if offset == |payload| then Ok([]) else Err(TrailingData)
    else
      match ReadLenencBytes(payload, offset)
      case Err(_) => Err(BadString)
      case Ok(p) =>
        var rest :- DecodeTextRow(payload, p.next, columns - 1);
        Ok([p.result] + rest)
  }

  predicate TextValues(values: seq<Option<seq<byte>>>) {
    forall i :: 0 <= i < |values| && values[i].Some? ==> |values[i].value| < Pow256(8)
  }

  function EncodeTextRow(values: seq<Option<seq<byte>>>): seq<byte>
    requires TextValues(values)
  {
    if values == [] then [] else LenencBytes(values[0]) + EncodeTextRow(values[1..])
  }

  lemma {:induction false} TextRowReadsBack(payload: seq<byte>, offset: nat, values: seq<Option<seq<byte>>>)
    requires TextValues(values)
    requires At(payload, offset, EncodeTextRow(values)) && offset + |EncodeTextRow(values)| == |payload|
    ensures DecodeTextRow(payload, offset, |values|) == Ok(values)
    decreases |values|
  {
    hide At, LenencBytes, ReadLenencBytes;
    if values != [] {
      AtConcat(payload, offset, LenencBytes(values[0]), EncodeTextRow(values[1..]));
      LenencBytesReadsBack(payload, offset, values[0]);
      TextRowReadsBack(payload, offset + |LenencBytes(values[0])|, values[1..]);
      assert [values[0]] + values[1..] == values;
    }
  }

  /** A text row, too, is recovered exactly when all of it was captured. */
  lemma CapturedTextRowReadsBackIff(values: seq<Option<seq<byte>>>)
    requires TextValues(values)
    ensures DecodeTextRow(Prefix(EncodeTextRow(values)), 0, |values|) == Ok(values) <==> |EncodeTextRow(values)| <= 256 * 1024
  {
    hide DecodeTextRow, EncodeTextRow;
    var payload := EncodeTextRow(values);
    assert payload[0..0 + |payload|] == payload;
    TextRowReadsBack(payload, 0, values);
    if |payload| > CAPTURE_LIMIT {
      CutTextFails(payload, CAPTURE_LIMIT, 0, values);
    }
  }

  /** No row of at least one column can be taken for a terminator or an error, in either row format. */
  lemma RowsAreNoTerminators(values: seq<Option<seq<byte>>>, cells: seq<Option<Cell>>, types: seq<Type>)
    requires TextValues(values) && values != []
    requires Items(RowItems(cells), types)
    ensures MysqlReplies.IsRow(EncodeTextRow(values)) && MysqlReplies.IsRow(EncodeRow(cells, types))
  {
    hide Bitmap, EncodeItems;
    Widths();
    var row := EncodeTextRow(values);
    assert row[0] == LenencBytes(values[0])[0];
    assert EncodeRow(cells, types)[0] == 0x00;
  }

  // ----- prepared parameters -------------------------------------------------------------------

  function ReadTypes(payload: seq<byte>, offset: nat, count: nat): (types: seq<Type>)
    requires offset + 2 * count <= |payload|
    ensures |types| == count
    decreases count
  {
    if count == 0 then []
    else [Type(payload[offset], payload[offset + 1] >= 0x80)] + ReadTypes(payload, offset + 2, count - 1)
  }

  function ExecuteSlot(bitmap: seq<byte>, t: Type, longData: map<nat, nat>, index: nat): Slot
    requires index / 8 < |bitmap|
  {
    if NullAt(bitmap, index) || KindOf(t.code) == NullKind then NoBytes(Null)
    else if index in longData && longData[index] > 0 then NoBytes(LongData(longData[index]))
    else Encoded
  }

  function ExecuteSlots(bitmap: seq<byte>, types: seq<Type>, longData: map<nat, nat>, from: nat): (slots: seq<Slot>)
    requires from <= |types| && |bitmap| == (|types| + 7) / 8
    ensures |slots| == |types| - from
    decreases |types| - from
  {
    if from == |types| then []
    else [ExecuteSlot(bitmap, types[from], longData, from)] + ExecuteSlots(bitmap, types, longData, from + 1)
  }

  /** The parameters of an EXECUTE and the types retained for the next one. */
  function DecodeExecute(payload: seq<byte>, count: nat, types: seq<Type>, longData: map<nat, nat>)
    : (Result<seq<Value>, Failure>, seq<Type>)
  {
    if |payload| < 10 || payload[0] != COM_STMT_EXECUTE then (Err(BadHeader), types)
    else if count == 0 then (Ok([]), types)
    else
      var length := (count + 7) / 8;
      if |payload| - 10 < length + 1 then (Err(Truncated), types)
      else
        var rebound, offset := payload[10 + length] != 0, 11 + length;
        if rebound && |payload| - offset < 2 * count then (Err(Truncated), types)
        else
          var current := if rebound then ReadTypes(payload, offset, count) else types;
          if |current| != count then (Err(MissingTypes), current)
          else
            (DecodeSlots(payload, if rebound then offset + 2 * count else offset, current,
                         ExecuteSlots(payload[10..10 + length], current, longData, 0)), current)
  }

  /**
   One EXECUTE as the client sends it: whether types come along, the types in force, the parameters, and
   for those streamed ahead the sizes of the chunks.
   */
  datatype Execution = Execution(rebind: bool, types: seq<Type>, items: seq<Item>, chunks: map<nat, seq<nat>>)

  /** Parameters are NULL, streamed ahead as long data, or encoded. */
  predicate ParametersOf(items: seq<Item>, types: seq<Type>) {
    Items(items, types) && forall i :: 0 <= i < |items| && items[i].Bare? ==> items[i].value == Null || items[i].value.LongData?
  }

  function Total(chunks: seq<nat>): nat {
    if chunks == [] then 0 else Total(chunks[..|chunks| - 1]) + chunks[|chunks| - 1]
  }

  /** What the proxy counts of long data: of each packet, the header of seven bytes included, it has the captured part. */
  function Counted(chunks: seq<nat>): nat {
    if chunks == [] then 0 else Counted(chunks[..|chunks| - 1]) + Min(chunks[|chunks| - 1], CAPTURE_LIMIT - 7)
  }

  predicate Fitting(chunks: seq<nat>) {
    forall i :: 0 <= i < |chunks| ==> chunks[i] <= CAPTURE_LIMIT - 7
  }

  lemma {:induction false} CountedIff(chunks: seq<nat>)
    ensures Counted(chunks) <= Total(chunks) && (Counted(chunks) == 0 <==> Total(chunks) == 0)
    ensures Counted(chunks) == Total(chunks) <==> Fitting(chunks)
  {
    if chunks != [] {
      var before := chunks[..|chunks| - 1];
      CountedIff(before);
      assert chunks == before + [chunks[|chunks| - 1]];
    }
  }

  predicate IsStreamed(items: seq<Item>, i: nat) {
    i < |items| && items[i].Bare? && items[i].value.LongData?
  }

  /** An execution the protocol allows; a statement has at most 65535 parameters. */
  predicate ExecutionOf(e: Execution) {
    && ParametersOf(e.items, e.types) && 0 < |e.types| <= 65535
    && (forall i <- e.chunks :: IsStreamed(e.items, i))
    && (forall i :: 0 <= i < |e.items| && IsStreamed(e.items, i) ==> i in e.chunks && e.items[i].value.size == Total(e.chunks[i]))
  }

  /** What was streamed for parameter `i` is not empty, no packet of it was cut, and its type is not that of NULL. */
  predicate StreamedWell(e: Execution, i: nat)
    requires ExecutionOf(e) && IsStreamed(e.items, i)
  {
    e.items[i].value.size > 0 && Fitting(e.chunks[i]) && KindOf(e.types[i].code) != NullKind
  }

  predicate Recoverable(e: Execution)
    requires ExecutionOf(e)
  {
    forall i :: 0 <= i < |e.items| && IsStreamed(e.items, i) ==> StreamedWell(e, i)
  }

  function ParameterNulls(items: seq<Item>): (nulls: seq<bool>)
    ensures |nulls| == |items|
  {
    seq(|items|, i requires 0 <= i < |items| => items[i] == Bare(Null))
  }

  /** The sizes the proxy has when the EXECUTE arrives. */
  function LongDataOf(e: Execution): map<nat, nat> {
    map i | i in e.chunks :: Counted(e.chunks[i])
  }

  function EncodeTypes(types: seq<Type>): (bytes: seq<byte>)
    ensures |bytes| == 2 * |types|
  {
    if types == [] then [] else [types[0].code, if types[0].unsigned then 0x80 else 0] + EncodeTypes(types[1..])
  }

  /** A header of ten bytes, the bitmap, the rebind flag, the types if rebound, and the encoded parameters. */
  function EncodeExecute(header: seq<byte>, e: Execution): seq<byte>
    requires ParametersOf(e.items, e.types)
  {
    header + (Bitmap(ParameterNulls(e.items), 0, (|e.types| + 7) / 8)
              + ([if e.rebind then 1 else 0] + ((if e.rebind then EncodeTypes(e.types) else []) + EncodeItems(e.items, e.types))))
  }

  lemma {:induction false} TypesReadBack(payload: seq<byte>, offset: nat, types: seq<Type>)
    requires At(payload, offset, EncodeTypes(types))
    ensures ReadTypes(payload, offset, |types|) == types
    decreases |types|
  {
    if types != [] {
      var first := [types[0].code, if types[0].unsigned then 0x80 else 0];
      AtConcat(payload, offset, first, EncodeTypes(types[1..]));
      SliceAt(payload, offset, first, 0, 2);
      TypesReadBack(payload, offset + 2, types[1..]);
    }
  }

  lemma {:induction false} ExecuteSlotAt(bitmap: seq<byte>, types: seq<Type>, longData: map<nat, nat>, from: nat,
                        i: nat)
    requires from <= i < |types| && |bitmap| == (|types| + 7) / 8
    ensures ExecuteSlots(bitmap, types, longData, from)[i - from] == ExecuteSlot(bitmap, types[i], longData, i)
    decreases |types| - from
  {
    hide ExecuteSlot;
    if from < i {
      ExecuteSlotAt(bitmap, types, longData, from + 1, i);
    }
  }

  /** Where the parts of an EXECUTE stand. */
  lemma ExecuteLayout(header: seq<byte>, e: Execution)
    requires ParametersOf(e.items, e.types) && |header| == 10 && header[0] == 0x17
    ensures var payload, length := EncodeExecute(header, e), (|e.types| + 7) / 8;
            var types := if e.rebind then EncodeTypes(e.types) else [];
            && |payload| >= 11 + length && payload[0] == COM_STMT_EXECUTE
            && payload[10..10 + length] == Bitmap(ParameterNulls(e.items), 0, length)
            && payload[10 + length] == (if e.rebind then 1 else 0)
            && At(payload, 11 + length, types) && At(payload, 11 + length + |types|, EncodeItems(e.items, e.types))
            && 11 + length + |types| + |EncodeItems(e.items, e.types)| == |payload|
  {
    hide Bitmap, EncodeItems, EncodeTypes, ParameterNulls;
    var payload, length := EncodeExecute(header, e), (|e.types| + 7) / 8;
    var types := if e.rebind then EncodeTypes(e.types) else [];
    assert payload[10..10 + length] == Bitmap(ParameterNulls(e.items), 0, length);
    assert payload[11 + length..] == types + EncodeItems(e.items, e.types);
    TailStands(payload, 11 + length, types, EncodeItems(e.items, e.types));
  }

  function SlotsOf(e: Execution): (slots: seq<Slot>)
    ensures |slots| == |e.types|
  {
    ExecuteSlots(Bitmap(ParameterNulls(e.items), 0, (|e.types| + 7) / 8), e.types, LongDataOf(e), 0)
  }

  /** The decoder takes each parameter for what it is. */
  lemma ExecuteSlotFits(e: Execution, i: nat)
    requires ExecutionOf(e) && Recoverable(e) && i < |e.types|
    ensures SlotFits(SlotsOf(e)[i], e.items[i], e.types[i])
  {
    hide Bitmap, NullAt, ExecuteSlots, LongDataOf, ParameterNulls, Counted, Total, Fitting;
    var length := (|e.types| + 7) / 8;
    ExecuteSlotAt(Bitmap(ParameterNulls(e.items), 0, length), e.types, LongDataOf(e), 0, i);
    BitmapReadsBack(ParameterNulls(e.items), 0, length, i);
    assert ParameterNulls(e.items)[i] == (e.items[i] == Bare(Null)) by {
      NullParameter(e.items, i);
    }
    LongDataAt(e, i);
  }

  lemma NullParameter(items: seq<Item>, i: nat)
    requires i < |items|
    ensures ParameterNulls(items)[i] == (items[i] == Bare(Null))
  {
  }

  lemma ExecuteSlotsFit(e: Execution)
    requires ExecutionOf(e) && Recoverable(e)
    ensures forall i :: 0 <= i < |e.types| ==> SlotFits(SlotsOf(e)[i], e.items[i], e.types[i])
  {
    hide SlotsOf, SlotFits, Recoverable;
    forall i | 0 <= i < |e.types|
      ensures SlotFits(SlotsOf(e)[i], e.items[i], e.types[i])
    {
      ExecuteSlotFits(e, i);
    }
  }

  /**
   The proxy decodes what it captured of an EXECUTE whose types come along or are the retained ones. All
   parameters are recovered exactly when the packet was captured whole, and none was streamed as nothing,
   in a packet longer than the capture, or under the type of NULL; the types are kept in any case.
   */
  lemma ExecuteReadsBackIff(header: seq<byte>, e: Execution, retained: seq<Type>)
    requires ExecutionOf(e) && |header| == 10 && header[0] == 0x17
    requires e.rebind || retained == e.types
    ensures var payload := EncodeExecute(header, e);
            var (decoded, types) := DecodeExecute(Prefix(payload), |e.types|, retained, LongDataOf(e));
            types == e.types && (decoded == Ok(Views(e.items)) <==> Recoverable(e) && |payload| <= 256 * 1024)
  {
    hide EncodeItems, DecodeSlots, SlotsOf, LongDataOf, EncodeExecute, DecodeExecute, Recoverable, Prefix;
    var payload := EncodeExecute(header, e);
    var offset := ExecuteDecodesSlots(header, e, retained);
    PrefixIsCut(payload);
    var captured, slots := Prefix(payload), SlotsOf(e);
    if Recoverable(e) {
      ExecuteSlotsFit(e);
      if |payload| <= CAPTURE_LIMIT {
        ItemsReadBack(payload, offset, e.types, slots, e.items);
      } else {
        CutItemsFail(payload, CAPTURE_LIMIT, offset, e.types, slots, e.items);
      }
    } else if DecodeSlots(captured, offset, e.types, slots).Ok? {
      UnrecoverableDiffers(captured, offset, e);
    }
  }

  lemma PrefixIsCut(payload: seq<byte>)
    ensures |payload| <= CAPTURE_LIMIT ==> Prefix(payload) == payload
    ensures |payload| > CAPTURE_LIMIT ==> Prefix(payload) == payload[..CAPTURE_LIMIT]
  {
  }

  /** Behind the bitmap, the flag and the types, which are always captured, the decoder is at the encoded parameters. */
  lemma ExecuteDecodesSlots(header: seq<byte>, e: Execution, retained: seq<Type>) returns (offset: nat)
    requires ExecutionOf(e) && |header| == 10 && header[0] == 0x17
    requires e.rebind || retained == e.types
    ensures var payload := EncodeExecute(header, e);
            && At(payload, offset, EncodeItems(e.items, e.types)) && offset + |EncodeItems(e.items, e.types)| == |payload|
            && offset <= |Prefix(payload)| && offset <= CAPTURE_LIMIT
            && DecodeExecute(Prefix(payload), |e.types|, retained, LongDataOf(e))
               == (DecodeSlots(Prefix(payload), offset, e.types, SlotsOf(e)), e.types)
  {
    hide Bitmap, EncodeItems, DecodeSlots, ExecuteSlots, EncodeTypes, ReadTypes, LongDataOf, At, EncodeExecute, ParameterNulls, Prefix;
    var payload, length := EncodeExecute(header, e), (|e.types| + 7) / 8;
    ExecuteLayout(header, e);
    offset := 11 + length;
    PrefixKeepsFront(payload, 10, offset);
    PrefixKeepsFront(payload, 10, 10 + length);
    PrefixKeepsByte(payload, 0);
    PrefixKeepsByte(payload, 10 + length);
    if e.rebind {
      PrefixKeeps(payload, offset, EncodeTypes(e.types));
      AtLength(Prefix(payload), offset, EncodeTypes(e.types));
      TypesReadBack(Prefix(payload), offset, e.types);
      offset := offset + 2 * |e.types|;
    }
  }

  lemma PrefixKeepsFront(payload: seq<byte>, a: nat, b: nat)
    requires a <= b <= |payload| && b <= CAPTURE_LIMIT
    ensures b <= |Prefix(payload)| && Prefix(payload)[a..b] == payload[a..b]
  {
  }

  lemma PrefixKeepsByte(payload: seq<byte>, i: nat)
    requires i < |payload| && i < CAPTURE_LIMIT
    ensures i < |Prefix(payload)| && Prefix(payload)[i] == payload[i]
  {
  }

  lemma PrefixKeeps(payload: seq<byte>, offset: nat, bytes: seq<byte>)
    requires At(payload, offset, bytes) && offset + |bytes| <= CAPTURE_LIMIT
    ensures At(Prefix(payload), offset, bytes)
  {
    hide Prefix;
    PrefixKeepsFront(payload, offset, offset + |bytes|);
  }

  /** A slot without bytes gives its value, and bytes never decode to long data. */
  lemma {:induction false} SlotsGive(data: seq<byte>, offset: nat, types: seq<Type>, slots: seq<Slot>, i: nat)
    requires offset <= |data| && |types| == |slots| && i < |slots|
    requires DecodeSlots(data, offset, types, slots).Ok?
    ensures var values := DecodeSlots(data, offset, types, slots).value;
            if slots[i].NoBytes? then values[i] == slots[i].value else !values[i].LongData?
    decreases |types|
  {
    hide DecodeValue;
    var next := offset;
    if slots[0].Encoded? {
      DecodedIsNoLongData(data, offset, types[0]);
      next := DecodeValue(data, offset, types[0]).value.next;
    }
    if i > 0 {
      SlotsGive(data, next, types[1..], slots[1..], i - 1);
    }
  }

  lemma DecodedIsNoLongData(data: seq<byte>, offset: nat, t: Type)
    requires offset <= |data| && DecodeValue(data, offset, t).Ok?
    ensures !DecodeValue(data, offset, t).value.result.LongData?
  {
    hide FixedInteger, ReadLenencBytes;
  }

  lemma {:induction false} ViewsAt(items: seq<Item>, i: nat)
    requires i < |items|
    ensures Views(items)[i] == ItemView(items[i])
    decreases |items|
  {
    if i > 0 {
      ViewsAt(items[1..], i - 1);
    }
  }

  /** What is decoded for the parameter that cannot be recovered is not its long data. */
  lemma UnrecoverableDiffers(payload: seq<byte>, offset: nat, e: Execution)
    requires ExecutionOf(e) && !Recoverable(e) && offset <= |payload|
    requires DecodeSlots(payload, offset, e.types, SlotsOf(e)).Ok?
    ensures DecodeSlots(payload, offset, e.types, SlotsOf(e)) != Ok(Views(e.items))
  {
    hide Bitmap, DecodeSlots, ExecuteSlots, LongDataOf, ParameterNulls, NullAt, Views, Counted, Total, Fitting;
    var bitmap := Bitmap(ParameterNulls(e.items), 0, (|e.types| + 7) / 8);
    var i :| 0 <= i < |e.items| && IsStreamed(e.items, i) && !StreamedWell(e, i);
    ExecuteSlotAt(bitmap, e.types, LongDataOf(e), 0, i);
    LongDataAt(e, i);
    SlotsGive(payload, offset, e.types, SlotsOf(e), i);
    ViewsAt(e.items, i);
  }

  /** One string parameter, bound and streamed as nothing: the packet carries no bytes for it, and is refused. */
  lemma EmptyLongDataIsRefused(header: seq<byte>)
    requires |header| == 10 && header[0] == 0x17
    ensures var e := Execution(true, [Type(0xfd, false)], [Bare(LongData(0))], map[0 := [0]]);
            && ExecutionOf(e) && LongDataOf(e) == map[0 := 0]
            && DecodeExecute(Prefix(EncodeExecute(header, e)), 1, [], LongDataOf(e)).0.Err?
  {
    hide Bitmap, DecodeExecute, EncodeExecute, ParameterNulls, ExecuteSlots;
    var e := Execution(true, [Type(0xfd, false)], [Bare(LongData(0))], map[0 := [0]]);
    assert [0][..0] == [] && Total([0]) == 0 && Counted([0]) == 0;
    var payload := EncodeExecute(header, e);
    var offset := ExecuteDecodesSlots(header, e, []);
    assert EncodeItems(e.items, e.types) == [];
    PrefixIsCut(payload);
    ExecuteSlotAt(Bitmap(ParameterNulls(e.items), 0, 1), e.types, LongDataOf(e), 0, 0);
    BitmapReadsBack(ParameterNulls(e.items), 0, 1, 0);
    NullParameter(e.items, 0);
    assert SlotsOf(e)[0] == Encoded;
    assert DecodeValue(payload, |payload|, e.types[0]).Err?;
  }

  /** One string longer than the capture, sent in the packet itself: what was captured of it is refused. */
  lemma LongParameterIsRefused(header: seq<byte>, text: seq<byte>)
    requires |header| == 10 && header[0] == 0x17 && 256 * 1024 < |text| < Pow256(8)
    ensures var e := Execution(true, [Type(0xfd, false)], [Coded(Data(text))], map[]);
            && ExecutionOf(e) && Recoverable(e)
            && DecodeExecute(Prefix(EncodeExecute(header, e)), 1, [], LongDataOf(e)).0 != Ok(Views(e.items))
  {
    hide DecodeExecute, EncodeExecute, LongDataOf, Views, EncodeItems, Pow256;
    var e := Execution(true, [Type(0xfd, false)], [Coded(Data(text))], map[]);
    ExecuteReadsBackIff(header, e, []);
    var offset := ExecuteDecodesSlots(header, e, []);
    TextStands(text);
  }

  lemma TextStands(text: seq<byte>)
    requires |text| < Pow256(8)
    ensures var items, types := [Coded(Data(text))], [Type(0xfd, false)];
            Items(items, types) && |EncodeItems(items, types)| >= |text|
  {
  }

  lemma LongDataAt(e: Execution, i: nat)
    requires ExecutionOf(e) && i < |e.items|
    ensures i in LongDataOf(e) <==> IsStreamed(e.items, i)
    ensures IsStreamed(e.items, i) ==>
              var size := e.items[i].value.size;
              && LongDataOf(e)[i] == Counted(e.chunks[i]) && (LongDataOf(e)[i] == 0 <==> size == 0)
              && (LongDataOf(e)[i] == size <==> Fitting(e.chunks[i]))
  {
    hide Counted, Total, Fitting;
    if IsStreamed(e.items, i) {
      CountedIff(e.chunks[i]);
    }
  }

  lemma TailStands(payload: seq<byte>, offset: nat, a: seq<byte>, b: seq<byte>)
    requires offset <= |payload| && payload[offset..] == a + b
    ensures At(payload, offset, a) && At(payload, offset + |a|, b) && offset + |a| + |b| == |payload|
  {
    AtConcat(payload, offset, a, b);
  }

  /** Executions of one statement: types come with the first and whenever they change. */
  predicate SessionOf(session: seq<Execution>, count: nat, retained: seq<Type>)
    decreases |session|
  {
    session == [] ||
    (&& ExecutionOf(session[0]) && |session[0].types| == count
     && (session[0].rebind || session[0].types == retained)
     && SessionOf(session[1..], count, session[0].types))
  }

  /** What the proxy decodes from the executions, one after the other. */
  function DecodeSession(header: seq<byte>, session: seq<Execution>, count: nat,
                        retained: seq<Type>): seq<Result<seq<Value>, Failure>>
    requires SessionOf(session, count, retained)
    decreases |session|
  {
    if session == [] then []
    else
      var (values, types) := DecodeExecute(Prefix(EncodeExecute(header, session[0])), count, retained, LongDataOf(session[0]));
      [values] + (if types == session[0].types then DecodeSession(header, session[1..], count, types) else [])
  }

  /** Over any sequence of EXECUTEs, types sent or retained, exactly the recoverable executions captured whole are recovered. */
  lemma {:induction false} SessionReadsBackIff(header: seq<byte>, session: seq<Execution>, count: nat, retained: seq<Type>)
    requires SessionOf(session, count, retained) && |header| == 10 && header[0] == 0x17
    ensures var decoded := DecodeSession(header, session, count, retained);
            |decoded| == |session| && forall i :: 0 <= i < |session| ==>
              && ExecutionOf(session[i])
              && (decoded[i] == Ok(Views(session[i].items)) <==>
                  Recoverable(session[i]) && |EncodeExecute(header, session[i])| <= 256 * 1024)
    decreases |session|
  {
    hide DecodeExecute, EncodeExecute, LongDataOf, Views, Recoverable, ExecutionOf, Prefix;
    if session != [] {
      ExecuteReadsBackIff(header, session[0], retained);
      SessionReadsBackIff(header, session[1..], count, session[0].types);
      assert forall i :: 1 <= i < |session| ==> session[i] == session[1..][i - 1];
    }
  }

  // ----- the decoding loops --------------------------------------------------------------------

  lemma SlotsSplit(read: seq<Value>, value: Value, rest: Result<seq<Value>, Failure>)
    ensures AfterValues(read + [value], rest) == AfterValues(read, AfterValues([value], rest))
    ensures AfterValues([], rest) == rest
  {
    if rest.Ok? {
      assert read + [value] + rest.value == read + ([value] + rest.value);
      assert [] + rest.value == rest.value;
    }
  }

  ghost function AfterValues(read: seq<Value>, rest: Result<seq<Value>, Failure>): Result<seq<Value>, Failure> {
    if rest.Ok? then Ok(read + rest.value) else rest
  }

  method DecodeBinaryRow(payload: seq<byte>, types: seq<Type>) returns (r: Result<seq<Value>, Failure>)
    ensures r == DecodeRow(payload, types)
  {
    hide DecodeValue, NullAt;
    if |payload| == 0 || payload[0] != 0x00 {
      return Err(BadHeader);
    }
    var bitmapLength := (|types| + 9) / 8;
    if |payload| < 1 + bitmapLength {
      return Err(Truncated);
    }
    var nulls := payload[1..1 + bitmapLength];
    var offset: nat := 1 + bitmapLength;
    var values: seq<Value> := [];
    ghost var rest := DecodeSlots(payload, offset, types, RowSlots(nulls, types, 0));
    SlotsSplit([], Null, rest);
    assert types[0..] == types;
    for index := 0 to |types|
      invariant offset <= |payload|
      invariant rest == DecodeSlots(payload, offset, types[index..], RowSlots(nulls, types, index))
      invariant DecodeRow(payload, types) == AfterValues(values, rest)
    {
      var bit := index + 2;
      assert types[index..][0] == types[index] && types[index..][1..] == types[index + 1..];
      assert RowSlots(nulls, types, index)[1..] == RowSlots(nulls, types, index + 1);
      if NullAt(nulls, bit) || KindOf(types[index].code) == NullKind {
        rest := DecodeSlots(payload, offset, types[index + 1..], RowSlots(nulls, types, index + 1));
        SlotsSplit(values, Null, rest);
        values := values + [Null];
      } else {
        var item :- DecodeValue(payload, offset, types[index]);
        offset := item.next;
        rest := DecodeSlots(payload, offset, types[index + 1..], RowSlots(nulls, types, index + 1));
        SlotsSplit(values, item.result, rest);
        values := values + [item.result];
      }
    }
    if offset != |payload| {
      return Err(TrailingData);
    }
    assert values + [] == values;
    return Ok(values);
  }

  function AfterLongData(longData: map<nat, nat>, payload: seq<byte>): map<nat, nat> {
    if |payload| < 7 then longData
    else
      var parameter := LittleEndian(payload[5..7]);
      longData[parameter := (if parameter in longData then longData[parameter] else 0) + (|payload| - 7)]
  }

  /** Long data of one parameter, as the client sends it in chunks and the proxy captures it. */
  function AfterChunks(longData: map<nat, nat>, start: seq<byte>, chunks: seq<seq<byte>>): map<nat, nat> {
    if chunks == [] then longData
    else AfterLongData(AfterChunks(longData, start, chunks[..|chunks| - 1]), Prefix(start + chunks[|chunks| - 1]))
  }

  function Sizes(chunks: seq<seq<byte>>): (sizes: seq<nat>)
    ensures |sizes| == |chunks|
  {
    seq(|chunks|, i requires 0 <= i < |chunks| => |chunks[i]|)
  }

  /** After all chunks the map holds what LongDataOf says, for this parameter, and is unchanged for the others. */
  lemma {:induction false} ChunksAddUp(longData: map<nat, nat>, start: seq<byte>, chunks: seq<seq<byte>>)
    requires |start| == 7 && LittleEndian(start[5..7]) !in longData && chunks != []
    ensures AfterChunks(longData, start, chunks) == longData[LittleEndian(start[5..7]) := Counted(Sizes(chunks))]
  {
    hide LittleEndian;
    var before, last := chunks[..|chunks| - 1], chunks[|chunks| - 1];
    if before != [] {
      ChunksAddUp(longData, start, before);
    }
    var captured := Prefix(start + last);
    assert captured[5..7] == start[5..7] && |captured| - 7 == Min(|last|, CAPTURE_LIMIT - 7);
    assert Sizes(chunks)[..|chunks| - 1] == Sizes(before);
  }

  /** A prepared statement: the types of the last binding and the long data streamed for the next EXECUTE. */
  class PreparedStatement {
    const parameters: nat
    var parameterTypes: seq<Type>
    var longData: map<nat, nat>

    constructor (parameters: nat)
      ensures this.parameters == parameters && parameterTypes == [] && longData == map[]
    {
      this.parameters, parameterTypes, longData := parameters, [], map[];
    }

    /** A captured packet of long data; its sizes add up until the EXECUTE. */
    method SendLongData(payload: seq<byte>)
      modifies this`longData
      ensures longData == AfterLongData(old(longData), payload)
    {
      if |payload| >= 7 {
        var parameter := LittleEndian(payload[5..7]);
        longData := longData[parameter := (if parameter in longData then longData[parameter] else 0) + (|payload| - 7)];
      }
    }

    /** Decodes the parameters, keeps newly bound types, and forgets the long data. */
    method Execute(payload: seq<byte>) returns (r: Result<seq<Value>, Failure>)
      modifies this
      ensures (r, parameterTypes) == DecodeExecute(payload, parameters, old(parameterTypes), old(longData))
      ensures longData == map[]
    {
      r := DecodeParameters(payload);
      longData := map[];
    }

    method DecodeParameters(payload: seq<byte>) returns (r: Result<seq<Value>, Failure>)
      modifies this`parameterTypes
      ensures (r, parameterTypes) == DecodeExecute(payload, parameters, old(parameterTypes), longData)
    {
      hide DecodeValue, ExecuteSlot, DecodeSlots, ExecuteSlots;
      if |payload| < 10 || payload[0] != COM_STMT_EXECUTE {
        return Err(BadHeader);
      }
      if parameters == 0 {
        return Ok([]);
      }
      var bitmapLength := (parameters + 7) / 8;
      if |payload| - 10 < bitmapLength + 1 {
        return Err(Truncated);
      }
      var nulls := payload[10..10 + bitmapLength];
      var newBindings := payload[10 + bitmapLength] != 0;
      var offset := 11 + bitmapLength;
      if newBindings {
        if |payload| - offset < parameters * 2 {
          return Err(Truncated);
        }
        parameterTypes := BindTypes(payload, offset, parameters);
        offset := offset + 2 * parameters;
      }
      if |parameterTypes| != parameters {
        return Err(MissingTypes);
      }
      r := DecodeBound(payload, offset, nulls);
    }

    method DecodeBound(payload: seq<byte>, start: nat, nulls: seq<byte>) returns (r: Result<seq<Value>, Failure>)
      requires start <= |payload| && |parameterTypes| == parameters && |nulls| == (parameters + 7) / 8
      ensures r == DecodeSlots(payload, start, parameterTypes, ExecuteSlots(nulls, parameterTypes, longData, 0))
    {
      hide DecodeValue, NullAt;
      var offset: nat := start;
      var types := parameterTypes;
      var values: seq<Value> := [];
      ghost var whole := DecodeSlots(payload, start, types, ExecuteSlots(nulls, types, longData, 0));
      ghost var rest := whole;
      SlotsSplit([], Null, rest);
      assert types[0..] == types;
      for index := 0 to parameters
        invariant offset <= |payload|
        invariant rest == DecodeSlots(payload, offset, types[index..], ExecuteSlots(nulls, types, longData, index))
        invariant whole == AfterValues(values, rest)
      {
        assert types[index..][0] == types[index] && types[index..][1..] == types[index + 1..];
        assert ExecuteSlots(nulls, types, longData, index)[1..] == ExecuteSlots(nulls, types, longData, index + 1);
        var value := Null;
        if NullAt(nulls, index) || KindOf(types[index].code) == NullKind {
        } else if index in longData && longData[index] > 0 {
          value := LongData(longData[index]);
        } else {
          var item :- DecodeValue(payload, offset, types[index]);
          value, offset := item.result, item.next;
        }
        rest := DecodeSlots(payload, offset, types[index + 1..], ExecuteSlots(nulls, types, longData, index + 1));
        SlotsSplit(values, value, rest);
        values := values + [value];
      }
      if offset != |payload| {
        return Err(TrailingData);
      }
      assert values + [] == values;
      return Ok(values);
    }
  }

  method BindTypes(payload: seq<byte>, start: nat, count: nat) returns (types: seq<Type>)
    requires start + 2 * count <= |payload|
    ensures types == ReadTypes(payload, start, count)
  {
    types := [];
    var offset := start;
    for index := 0 to count
      invariant offset == start + 2 * index
      invariant ReadTypes(payload, start, count) == types + ReadTypes(payload, offset, count - index)
    {
      types := types + [Type(payload[offset], payload[offset + 1] >= 0x80)];
      offset := offset + 2;
    }
  }
}

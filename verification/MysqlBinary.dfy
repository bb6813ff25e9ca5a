/** MySQL binary values: result rows and prepared-statement parameters, with their offset null bitmaps. */
module MysqlBinary {
  import opened Wrappers
  import opened Bytes
  import opened Streams
  import opened MysqlPacket

  const PREVIEW_LIMIT: nat := 4096
  const COM_STMT_EXECUTE: byte := 0x17

  datatype Type = Type(code: byte, unsigned: bool)

  datatype Value =
    | Null
    | Integer(value: int)
    | Float32(bits: nat)
    | Float64(bits: nat)
    | ZeroDay
    | ZeroMoment
    | Day(year: nat, month: byte, day: byte)
    | Moment(year: nat, month: byte, day: byte, hour: byte, minute: byte, second: byte, micros: Option<nat>)
    | ZeroSpan
    | Span(negative: bool, hours: nat, minute: byte, second: byte, micros: Option<nat>)
    | Text(preview: seq<byte>, size: nat)
    | LongData(size: nat)

  datatype Failure = Truncated | BadLength | BadString | UnsupportedType | BadHeader | MissingTypes | TrailingData

  // ----- kinds of types ------------------------------------------------------------------------

  datatype Kind = NullKind | IntegerKind(width: nat) | FloatKind | DoubleKind | DateKind | MomentKind | TimeKind | TextKind | Unsupported

  function KindOf(code: byte): Kind {
    match code
    case 0x06 => NullKind
    case 0x01 => IntegerKind(1)
    case 0x02 => IntegerKind(2)
    case 0x0d => IntegerKind(2)
    case 0x03 => IntegerKind(4)
    case 0x09 => IntegerKind(4)
    case 0x08 => IntegerKind(8)
    case 0x04 => FloatKind
    case 0x05 => DoubleKind
    case 0x0a => DateKind
    case 0x0e => DateKind
    case 0x0c => MomentKind
    case 0x07 => MomentKind
    case 0x0b => TimeKind
    case 0x00 => TextKind
    case 0x0f => TextKind
    case 0x10 => TextKind
    case _ => if 0xf5 <= code then TextKind else Unsupported
  }

  // ----- decoding ------------------------------------------------------------------------------

  function FixedInteger(data: seq<byte>, offset: nat, width: nat): (r: Result<Parsed<nat>, Failure>)
    requires offset <= |data|
    ensures r.Ok? ==> r.value.next == offset + width <= |data|
  {
    if |data| - offset < width then Err(Truncated)
    else Ok(Parsed(LittleEndian(data[offset..offset + width]), offset + width))
  }

  /** Two's complement of the given width in bytes, unless the type is unsigned. */
  function IntegerValue(value: nat, width: nat, unsigned: bool): int {
    if unsigned || value < Pow256(width) / 2 then value else value - Pow256(width)
  }

  function DecodeMoment(data: seq<byte>, offset: nat, dateOnly: bool): (r: Result<Parsed<Value>, Failure>)
    requires offset <= |data|
    ensures r.Ok? ==> offset < r.value.next <= |data|
  {
    if offset == |data| then Err(Truncated)
    else
      var length, at := data[offset], offset + 1;
      if (length != 0 && length != 4 && length != 7 && length != 11) || |data| - at < length then Err(BadLength)
      else if length == 0 then Ok(Parsed(if dateOnly then ZeroDay else ZeroMoment, at))
      else
        var year := LittleEndian(data[at..at + 2]);
        if length == 4 || dateOnly then Ok(Parsed(Day(year, data[at + 2], data[at + 3]), at + 4))
        else
          var micros := if length == 11 then Some(LittleEndian(data[at + 7..at + 11])) else None;
          Ok(Parsed(Moment(year, data[at + 2], data[at + 3], data[at + 4], data[at + 5], data[at + 6], micros), at + length))
  }

  function DecodeSpan(data: seq<byte>, offset: nat): (r: Result<Parsed<Value>, Failure>)
    requires offset <= |data|
    ensures r.Ok? ==> offset < r.value.next <= |data|
  {
    if offset == |data| then Err(Truncated)
    else
      var length, at := data[offset], offset + 1;
      if (length != 0 && length != 8 && length != 12) || |data| - at < length then Err(BadLength)
      else if length == 0 then Ok(Parsed(ZeroSpan, at))
      else
        var days := LittleEndian(data[at + 1..at + 5]);
        var micros := if length == 12 then Some(LittleEndian(data[at + 8..at + 12])) else None;
        Ok(Parsed(Span(data[at] != 0, days * 24 + data[at + 5], data[at + 6], data[at + 7], micros), at + length))
  }

  function Captured(data: seq<byte>): Value {
    Text(if |data| <= PREVIEW_LIMIT then data else data[..PREVIEW_LIMIT], |data|)
  }

  function DecodeValue(data: seq<byte>, offset: nat, valueType: Type): (r: Result<Parsed<Value>, Failure>)
    requires offset <= |data|
    ensures r.Ok? ==> offset <= r.value.next <= |data|
  {
    match KindOf(valueType.code)
    case NullKind => Ok(Parsed(Null, offset))
    case IntegerKind(width) =>
      var p :- FixedInteger(data, offset, width);
      Ok(Parsed(Integer(IntegerValue(p.result, width, valueType.unsigned)), p.next))
    case FloatKind =>
      var p :- FixedInteger(data, offset, 4);
      Ok(Parsed(Float32(p.result), p.next))
    case DoubleKind =>
      var p :- FixedInteger(data, offset, 8);
      Ok(Parsed(Float64(p.result), p.next))
    case DateKind => DecodeMoment(data, offset, true)
    case MomentKind => DecodeMoment(data, offset, false)
    case TimeKind => DecodeSpan(data, offset)
    case TextKind =>
      (match ReadLenencBytes(data, offset)
       case Err(_) => Err(BadString)
       case Ok(p) => Ok(Parsed(if p.result.Some? then Captured(p.result.value) else Null, p.next)))
    case Unsupported => Err(UnsupportedType)
  }

  /** Which values have bytes of their own. */
  datatype Slot = NoBytes(value: Value) | Encoded

  /** The values of the remaining slots. */
  function DecodeSlots(data: seq<byte>, offset: nat, types: seq<Type>, slots: seq<Slot>): (r: Result<seq<Value>,
                       Failure>)
    requires offset <= |data| && |types| == |slots|
    ensures r.Ok? ==> |r.value| == |types|
    decreases |types|
  {
    if types == [] then if offset == |data| then Ok([]) else Err(TrailingData)
    else
      match slots[0]
      case NoBytes(value) =>
        var rest :- DecodeSlots(data, offset, types[1..], slots[1..]);
        Ok([value] + rest)
      case Encoded =>
        var p :- DecodeValue(data, offset, types[0]);
        var rest :- DecodeSlots(data, p.next, types[1..], slots[1..]);
        Ok([p.result] + rest)
  }

  function NullAt(bitmap: seq<byte>, bit: nat): bool
    requires bit / 8 < |bitmap|
  {
    Bit(bitmap[bit / 8], bit % 8)
  }

  function RowSlots(bitmap: seq<byte>, types: seq<Type>, from: nat): (slots: seq<Slot>)
    requires from <= |types| && |bitmap| == (|types| + 9) / 8
    ensures |slots| == |types| - from
    decreases |types| - from
  {
    if from == |types| then []
    else
      [if NullAt(bitmap, from + 2) || KindOf(types[from].code) == NullKind then NoBytes(Null) else Encoded]
      + RowSlots(bitmap, types, from + 1)
  }

  function DecodeRow(payload: seq<byte>, types: seq<Type>): (r: Result<seq<Value>, Failure>)
    ensures r.Ok? ==> |r.value| == |types|
  {
    var length := (|types| + 9) / 8;
    if payload == [] || payload[0] != 0x00 then Err(BadHeader)
    else if |payload| < 1 + length then Err(Truncated)
    else DecodeSlots(payload, 1 + length, types, RowSlots(payload[1..1 + length], types, 0))
  }

  // ----- encoding ------------------------------------------------------------------------------

  /** What a server or client puts in a slot: a value, or string data of any length. */
  datatype Cell = Plain(value: Value) | Data(bytes: seq<byte>)

  function CellView(cell: Cell): Value {
    match cell
    case Plain(value) => value
    case Data(bytes) => Text(bytes[..Min(|bytes|, 4096)], |bytes|)
  }

  lemma CapturedIs(data: seq<byte>)
    ensures Captured(data) == Text(data[..Min(|data|, 4096)], |data|)
  {
    assert |data| <= 4096 ==> data[..|data|] == data;
  }

  predicate ValidMicros(micros: Option<nat>) {
    micros.Some? ==> micros.value < Pow256(4)
  }

  /** The cells of a type. */
  predicate CellOf(cell: Cell, t: Type) {
    match KindOf(t.code)
    case NullKind => cell == Plain(Null)
    case IntegerKind(width) =>
      cell.Plain? && cell.value.Integer? &&
      (if t.unsigned then 0 <= cell.value.value < Pow256(width)
       else -(Pow256(width) / 2) <= cell.value.value < Pow256(width) / 2)
    case FloatKind => cell.Plain? && cell.value.Float32? && cell.value.bits < Pow256(4)
    case DoubleKind => cell.Plain? && cell.value.Float64? && cell.value.bits < Pow256(8)
    case DateKind => cell.Plain? && (cell.value.ZeroDay? || (cell.value.Day? && cell.value.year < Pow256(2)))
    case MomentKind =>
      cell.Plain? && (cell.value.ZeroMoment? || (cell.value.Day? && cell.value.year < Pow256(2))
                      || (cell.value.Moment? && cell.value.year < Pow256(2) && ValidMicros(cell.value.micros)))
    case TimeKind =>
      cell.Plain? && (cell.value.ZeroSpan? || (cell.value.Span? && cell.value.hours / 24 < Pow256(4) && ValidMicros(cell.value.micros)))
    case TextKind => cell.Data? && |cell.bytes| < Pow256(8)
    case Unsupported => false
  }

  function EncodeMicros(micros: Option<nat>): seq<byte> {
    if micros.Some? then ToLittleEndian(micros.value, 4) else []
  }

  function EncodeMoment(value: Value): (bytes: seq<byte>)
    requires value.Day? || value.Moment?
  {
    if value.Day? then [4] + ToLittleEndian(value.year, 2) + [value.month, value.day]
    else
      [if value.micros.Some? then 11 else 7] + ToLittleEndian(value.year, 2)
      + [value.month, value.day, value.hour, value.minute, value.second] + EncodeMicros(value.micros)
  }

  function EncodeSpan(value: Value): (bytes: seq<byte>)
    requires value.Span?
  {
    [if value.micros.Some? then 12 else 8, if value.negative then 1 else 0] + ToLittleEndian(value.hours / 24, 4)
    + [value.hours % 24, value.minute, value.second] + EncodeMicros(value.micros)
  }

  function EncodeValue(cell: Cell, t: Type): seq<byte>
    requires CellOf(cell, t)
  {
    match cell
    case Data(bytes) => LenencBytes(Some(bytes))
    case Plain(value) =>
      match value
      case Null => []
      case Integer(n) =>
        var width := KindOf(t.code).width;
        ToLittleEndian(if n < 0 then n + Pow256(width) else n, width)
      case Float32(bits) => ToLittleEndian(bits, 4)
      case Float64(bits) => ToLittleEndian(bits, 8)
      case ZeroDay => [0]
      case ZeroMoment => [0]
      case Day(_, _, _) => EncodeMoment(value)
      case Moment(_, _, _, _, _, _, _) => EncodeMoment(value)
      case ZeroSpan => [0]
      case Span(_, _, _, _, _) => EncodeSpan(value)
      case _ => []
  }

  /** Slices of what stands at an offset. */
  lemma SliceAt(data: seq<byte>, offset: nat, bytes: seq<byte>, from: nat, to: nat)
    requires At(data, offset, bytes) && from <= to <= |bytes|
    ensures offset + to <= |data| && data[offset + from..offset + to] == bytes[from..to]
    ensures forall i :: 0 <= i < |bytes| ==> data[offset + i] == bytes[i]
  {
    forall i | 0 <= i < |bytes| ensures data[offset + i] == bytes[i] {
      assert data[offset..offset + |bytes|][i] == bytes[i];
    }
    assert data[offset + from..offset + to] == data[offset..offset + |bytes|][from..to];
  }

  lemma MomentReadsBack(data: seq<byte>, offset: nat, value: Value, dateOnly: bool)
    requires value.Day? || (value.Moment? && !dateOnly && ValidMicros(value.micros))
    requires value.year < Pow256(2)
    requires At(data, offset, EncodeMoment(value))
    ensures offset <= |data| && DecodeMoment(data, offset, dateOnly) == Ok(Parsed(value, offset + |EncodeMoment(value)|))
  {
    hide ToLittleEndian, LittleEndian;
    var bytes, at := EncodeMoment(value), offset + 1;
    SliceAt(data, offset, bytes, 1, 3);
    LittleEndianInverse(value.year, 2);
    assert data[at..at + 2] == bytes[1..3] == ToLittleEndian(value.year, 2);
    assert bytes[3] == value.month && bytes[4] == value.day;
    assert data[offset] == bytes[0] && data[at + 2] == bytes[3] && data[at + 3] == bytes[4];
    if value.Moment? {
      ClockBytes(data, offset, value);
    }
  }

  lemma ClockBytes(data: seq<byte>, offset: nat, value: Value)
    requires value.Moment? && ValidMicros(value.micros) && At(data, offset, EncodeMoment(value))
    ensures var at := offset + 1;
            && at + 7 <= |data|
            && data[at + 4] == value.hour && data[at + 5] == value.minute && data[at + 6] == value.second
            && (value.micros.Some? ==> at + 11 <= |data| && LittleEndian(data[at + 7..at + 11]) == value.micros.value)
  {
    hide ToLittleEndian, LittleEndian;
    var bytes, at := EncodeMoment(value), offset + 1;
    SliceAt(data, offset, bytes, 0, 8);
    assert bytes[5] == value.hour && bytes[6] == value.minute && bytes[7] == value.second;
    assert data[at + 4] == bytes[5] && data[at + 5] == bytes[6] && data[at + 6] == bytes[7];
    if value.micros.Some? {
      SliceAt(data, offset, bytes, 8, 12);
      assert data[at + 7..at + 11] == bytes[8..12] == ToLittleEndian(value.micros.value, 4);
      LittleEndianInverse(value.micros.value, 4);
    }
  }

  lemma SpanReadsBack(data: seq<byte>, offset: nat, value: Value)
    requires value.Span? && value.hours / 24 < Pow256(4) && ValidMicros(value.micros)
    requires At(data, offset, EncodeSpan(value))
    ensures offset <= |data| && DecodeSpan(data, offset) == Ok(Parsed(value, offset + |EncodeSpan(value)|))
  {
    hide ToLittleEndian, LittleEndian;
    var bytes, at := EncodeSpan(value), offset + 1;
    SliceAt(data, offset, bytes, 2, 6);
    LittleEndianInverse(value.hours / 24, 4);
    assert value.hours / 24 * 24 + value.hours % 24 == value.hours;
    assert data[at + 1..at + 5] == bytes[2..6] == ToLittleEndian(value.hours / 24, 4);
    assert bytes[0] == (if value.micros.Some? then 12 else 8) && bytes[1] == (if value.negative then 1 else 0);
    assert bytes[6] == value.hours % 24 && bytes[7] == value.minute && bytes[8] == value.second;
    assert data[offset] == bytes[0] && data[at] == bytes[1];
    assert data[at + 5] == bytes[6] && data[at + 6] == bytes[7] && data[at + 7] == bytes[8];
    if value.micros.Some? {
      SliceAt(data, offset, bytes, 9, 13);
      assert data[at + 8..at + 12] == bytes[9..13] == ToLittleEndian(value.micros.value, 4);
      LittleEndianInverse(value.micros.value, 4);
    }
  }

  /** Every value of every supported type reads back, and the offset ends right behind it. */
  lemma ValueReadsBack(data: seq<byte>, offset: nat, cell: Cell, t: Type)
    requires CellOf(cell, t) && At(data, offset, EncodeValue(cell, t))
    ensures offset <= |data|
    ensures DecodeValue(data, offset, t) == Ok(Parsed(CellView(cell), offset + |EncodeValue(cell, t)|))
  {
    hide DecodeMoment, DecodeSpan, ReadLenencBytes, LenencBytes;
    var bytes := EncodeValue(cell, t);
    SliceAt(data, offset, bytes, 0, |bytes|);
    assert bytes[0..|bytes|] == bytes;
    match KindOf(t.code) {
      case NullKind =>
      case IntegerKind(width) => IntegerReadsBack(cell.value.value, width, t.unsigned);
      case FloatKind => LittleEndianInverse(cell.value.bits, 4);
      case DoubleKind => LittleEndianInverse(cell.value.bits, 8);
      case DateKind => TemporalReadsBack(data, offset, cell, t);
      case MomentKind => TemporalReadsBack(data, offset, cell, t);
      case TimeKind => TemporalReadsBack(data, offset, cell, t);
      case TextKind =>
        LenencBytesReadsBack(data, offset, Some(cell.bytes));
        CapturedIs(cell.bytes);
    }
  }

  /** Which type numbers have which form: integers of 1, 2, 4 and 8 bytes, floats, dates, moments, times, texts, and NULL. */
  lemma KindsIff(code: byte)
    ensures forall width :: KindOf(code) == IntegerKind(width) <==>
              (width == 1 && code == 1) || (width == 2 && code in {2, 13}) || (width == 4 && code in {3, 9}) || (width == 8 && code == 8)
    ensures KindOf(code) == NullKind <==> code == 6
    ensures KindOf(code) == FloatKind <==> code == 4
    ensures KindOf(code) == DoubleKind <==> code == 5
    ensures KindOf(code) == DateKind <==> code in {10, 14}
    ensures KindOf(code) == MomentKind <==> code in {7, 12}
    ensures KindOf(code) == TimeKind <==> code == 11
    ensures KindOf(code) == TextKind <==> code in {0, 15, 16} || code >= 245
    ensures KindOf(code) == Unsupported <==> 17 <= code <= 244
  {
  }

  lemma IntegerReadsBack(n: int, width: nat, unsigned: bool)
    requires width == 1 || width == 2 || width == 4 || width == 8
    requires if unsigned then 0 <= n < Pow256(width) else -(Pow256(width) / 2) <= n < Pow256(width) / 2
    ensures var wire := if n < 0 then n + Pow256(width) else n;
            0 <= wire && IntegerValue(LittleEndian(ToLittleEndian(wire, width)), width, unsigned) == n
  {
    Widths();
    LittleEndianInverse(if n < 0 then n + Pow256(width) else n, width);
  }

  lemma TemporalReadsBack(data: seq<byte>, offset: nat, cell: Cell, t: Type)
    requires KindOf(t.code) in {DateKind, MomentKind, TimeKind}
    requires CellOf(cell, t) && At(data, offset, EncodeValue(cell, t))
    ensures offset <= |data|
    ensures DecodeValue(data, offset, t) == Ok(Parsed(CellView(cell), offset + |EncodeValue(cell, t)|))
  {
    hide DecodeMoment, DecodeSpan;
    if cell.value.Day? || cell.value.Moment? {
      MomentReadsBack(data, offset, cell.value, KindOf(t.code) == DateKind);
    } else if cell.value.Span? {
      SpanReadsBack(data, offset, cell.value);
    } else {
      ZeroReadsBack(data, offset);
    }
  }

  lemma ZeroReadsBack(data: seq<byte>, offset: nat)
    requires At(data, offset, [0])
    ensures offset <= |data|
    ensures DecodeMoment(data, offset, true) == Ok(Parsed(ZeroDay, offset + 1))
    ensures DecodeMoment(data, offset, false) == Ok(Parsed(ZeroMoment, offset + 1))
    ensures DecodeSpan(data, offset) == Ok(Parsed(ZeroSpan, offset + 1))
  {
    SliceAt(data, offset, [0], 0, 1);
  }
}

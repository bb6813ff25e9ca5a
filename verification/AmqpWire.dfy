/** AMQP 0-9-1 frames (section 4.2.3) and the methods of the connection handshake. */
module AmqpWire {
  import opened Wrappers
  import opened Bytes
  import opened Streams
  import opened AmqpMethods

  const FRAME_END: byte := 0xce
  const HARD_FRAME_MAX: nat := 128 * 1024 * 1024

  // ----- frames --------------------------------------------------------------------------------

  function FrameLimit(negotiated: nat): nat {
    if negotiated != 0 && negotiated < HARD_FRAME_MAX then negotiated else HARD_FRAME_MAX
  }

  datatype FrameError = CutShort | TooLarge | BadTerminator | BadHeartbeat

  predicate BadBeat(typeID: byte, channel: nat, payload: seq<byte>) {
    typeID == FRAME_HEARTBEAT && (channel != 0 || payload != [])
  }

  /** The frame at `pos`, and where it ends. */
  function FrameAt(data: seq<byte>, pos: nat, negotiated: nat): (r: Result<(Frame, nat), FrameError>)
    requires pos <= |data|
    ensures r.Ok? ==> pos + 8 <= r.value.1 <= |data| && r.value.1 - pos <= FrameLimit(negotiated)
  {
    if |data| - pos < 7 then Err(CutShort) else
    var size := BigEndian(data[pos + 3..pos + 7]);
    if size + 8 > FrameLimit(negotiated) then Err(TooLarge)
    else if |data| - pos < size + 8 then Err(CutShort) else
    var raw := data[pos..pos + size + 8];
    var frame := Frame(raw[0], BigEndian(raw[1..3]), raw[7..size + 7], raw);
    if raw[size + 7] != FRAME_END then Err(BadTerminator)
    else if BadBeat(frame.typeID, frame.channel, frame.payload) then Err(BadHeartbeat)
    else Ok((frame, pos + size + 8))
  }

  method ReadFrame(reader: ByteReader, negotiated: nat) returns (r: Result<Frame, FrameError>)
    requires reader.Valid()
    modifies reader`pos
    ensures reader.Valid()
    ensures match FrameAt(reader.data, old(reader.pos), negotiated)
            case Ok((frame, next)) => r == Ok(frame) && reader.pos == next
            case Err(error) => r == Err(error)
  {
    hide BigEndian;
    ghost var start := reader.pos;
    var head := reader.ReadFull(7);
    if head.None? {
      return Err(CutShort);
    }
    var header := head.value;
    var size := BigEndian(header[3..7]);
    assert header[3..7] == reader.data[start + 3..start + 7];
    var limit := HARD_FRAME_MAX;
    if negotiated != 0 && negotiated < limit {
      limit := negotiated;
    }
    if size + 8 > limit {
      return Err(TooLarge);
    }
    var rest := reader.ReadFull(size + 1);
    if rest.None? {
      return Err(CutShort);
    }
    var raw := header + rest.value;
    assert raw == reader.data[start..start + size + 8];
    if raw[|raw| - 1] != FRAME_END {
      return Err(BadTerminator);
    }
    var frame := Frame(raw[0], BigEndian(raw[1..3]), raw[7..|raw| - 1], raw);
    if frame.typeID == FRAME_HEARTBEAT && (frame.channel != 0 || |frame.payload| != 0) {
      return Err(BadHeartbeat);
    }
    return Ok(frame);
  }

  /** The length field holds the low 32 bits of the payload's size. */
  function MakeFrame(typeID: byte, channel: nat, payload: seq<byte>): Frame {
    Frame(typeID, channel, payload, [typeID] + ToBigEndian(channel, 2) + ToBigEndian(|payload|, 4) + payload + [FRAME_END])
  }

  method MakeFrameBuffer(typeID: byte, channel: nat, payload: seq<byte>) returns (raw: array<byte>)
    ensures fresh(raw) && raw[..] == MakeFrame(typeID, channel, payload).raw
  {
    raw := new byte[|payload| + 8](_ => 0);
    raw[0] := typeID;
    var number, size := ToBigEndian(channel, 2), ToBigEndian(|payload|, 4);
    forall i | 0 <= i < 2 {
      raw[1 + i] := number[i];
    }
    forall i | 0 <= i < 4 {
      raw[3 + i] := size[i];
    }
    forall i | 0 <= i < |payload| {
      raw[7 + i] := payload[i];
    }
    raw[raw.Length - 1] := FRAME_END;
    assert raw[..] == [typeID] + number + size + payload + [FRAME_END];
  }

  /** Frames the limit and the heartbeat rule allow. */
  predicate Acceptable(frame: Frame, negotiated: nat) {
    && frame.channel < 0x1_0000
    && |frame.payload| + 8 <= FrameLimit(negotiated)
    && !BadBeat(frame.typeID, frame.channel, frame.payload)
  }

  lemma RawParts(typeID: byte, channel: nat, payload: seq<byte>)
    ensures var raw := MakeFrame(typeID, channel, payload).raw;
            && |raw| == |payload| + 8
            && raw[0] == typeID && raw[1..3] == ToBigEndian(channel, 2) && raw[3..7] == ToBigEndian(|payload|, 4)
            && raw[7..|payload| + 7] == payload && raw[|payload| + 7] == FRAME_END
  {
  }

  lemma FourBytes(n: nat)
    requires n < Pow256(4)
    ensures ToBigEndian(n, 4) == [n / 0x100_0000 % 256, n / 0x1_0000 % 256, n / 0x100 % 256, n % 256]
  {
    var n1, n2, n3 := n / 256, n / 256 / 256, n / 256 / 256 / 256;
    assert ToBigEndian(n, 4) == ToBigEndian(n1, 3) + [n % 256];
    assert ToBigEndian(n1, 3) == ToBigEndian(n2, 2) + [n1 % 256];
    assert ToBigEndian(n2, 2) == ToBigEndian(n3, 1) + [n2 % 256];
    assert ToBigEndian(n3, 1) == [] + [n3 % 256];
  }

  /** Type, channel and size, the payload and the end octet 206; and which frames are read: up to the limit, which is never above 128 MiB. */
  lemma FrameInFull(frame: Frame, negotiated: nat)
    requires frame == MakeFrame(frame.typeID, frame.channel, frame.payload) && Acceptable(frame, negotiated)
    ensures var n, c := |frame.payload|, frame.channel;
            && frame.raw == [frame.typeID, c / 256, c % 256, n / 0x100_0000 % 256, n / 0x1_0000 % 256, n / 0x100 % 256, n % 256]
                            + frame.payload + [206]
            && |frame.raw| <= 128 * 1024 * 1024 && (negotiated != 0 ==> |frame.raw| <= negotiated)
            && (frame.typeID == 8 ==> c == 0 && n == 0)
  {
    hide ToBigEndian;
    var n, c := |frame.payload|, frame.channel;
    Widths();
    FourBytes(n);
    ByteOrders(c / 256, c % 256);
  }

  lemma AcceptableIff(frame: Frame, negotiated: nat)
    ensures Acceptable(frame, negotiated) <==>
            && frame.channel < 0x1_0000 && |frame.payload| + 8 <= 128 * 1024 * 1024
            && (negotiated != 0 ==> |frame.payload| + 8 <= negotiated)
            && (frame.typeID == 8 ==> frame.channel == 0 && frame.payload == [])
  {
  }

  /** A frame is read exactly when the bytes of its making stand there and it is acceptable; its own bytes are kept. */
  lemma FrameIff(data: seq<byte>, pos: nat, negotiated: nat, frame: Frame, next: nat)
    requires pos <= |data|
    ensures FrameAt(data, pos, negotiated) == Ok((frame, next)) <==>
            && Acceptable(frame, negotiated)
            && frame == MakeFrame(frame.typeID, frame.channel, frame.payload)
            && At(data, pos, frame.raw) && next == pos + |frame.raw|
  {
    if FrameAt(data, pos, negotiated) == Ok((frame, next)) {
      ReadIsMade(data, pos, negotiated);
    }
    if && Acceptable(frame, negotiated)
       && frame == MakeFrame(frame.typeID, frame.channel, frame.payload)
       && At(data, pos, frame.raw) && next == pos + |frame.raw| {
      MadeReads(data, pos, negotiated, frame);
    }
  }

  lemma ReadIsMade(data: seq<byte>, pos: nat, negotiated: nat)
    requires pos <= |data| && FrameAt(data, pos, negotiated).Ok?
    ensures var (frame, next) := FrameAt(data, pos, negotiated).value;
            && Acceptable(frame, negotiated)
            && frame == MakeFrame(frame.typeID, frame.channel, frame.payload)
            && At(data, pos, frame.raw) && next == pos + |frame.raw|
  {
    hide BigEndian, ToBigEndian;
    var (frame, next) := FrameAt(data, pos, negotiated).value;
    var raw := frame.raw;
    SliceOfSlice(data, pos, next, 3, 7);
    Widths();
    ToBigEndianInverse(raw[1..3]);
    ToBigEndianInverse(raw[3..7]);
    assert raw == [raw[0]] + raw[1..3] + raw[3..7] + raw[7..|raw| - 1] + [raw[|raw| - 1]];
  }

  lemma MadeReads(data: seq<byte>, pos: nat, negotiated: nat, frame: Frame)
    requires pos <= |data| && Acceptable(frame, negotiated)
    requires frame == MakeFrame(frame.typeID, frame.channel, frame.payload) && At(data, pos, frame.raw)
    ensures FrameAt(data, pos, negotiated) == Ok((frame, pos + |frame.raw|))
  {
    hide BigEndian, ToBigEndian;
    Widths();
    RawParts(frame.typeID, frame.channel, frame.payload);
    BigEndianInverse(frame.channel, 2);
    BigEndianInverse(|frame.payload|, 4);
    SliceOfSlice(data, pos, pos + |frame.raw|, 3, 7);
  }

  // ----- fields --------------------------------------------------------------------------------

  /** The next `length` bytes and the position behind them. */
  function Take(data: seq<byte>, pos: nat, length: nat): (r: Option<(seq<byte>, nat)>)
    requires pos <= |data|
    ensures r.Some? <==> pos + length <= |data|
    ensures r.Some? ==> r.value == (data[pos..pos + length], pos + length)
  {
    if |data| - pos < length then None else Some((data[pos..pos + length], pos + length))
  }

  function Unsigned(data: seq<byte>, pos: nat, width: nat): (r: Option<(nat, nat)>)
    requires pos <= |data|
    ensures r.Some? ==> r.value.0 < Pow256(width) && r.value.1 == pos + width <= |data|
  {
    match Take(data, pos, width)
    case None => None
    case Some((bytes, next)) => Some((BigEndian(bytes), next))
  }

  /** A length of `width` bytes, and that many bytes. */
  function Counted(data: seq<byte>, pos: nat, width: nat): (r: Option<(seq<byte>, nat)>)
    requires pos <= |data|
    ensures r.Some? ==> r.value.1 == pos + width + |r.value.0| <= |data|
  {
    match Unsigned(data, pos, width)
    case None => None
    case Some((length, next)) => Take(data, next, length)
  }

  function ShortStr(data: seq<byte>, pos: nat): (r: Option<(seq<byte>, nat)>)
    requires pos <= |data|
    ensures r.Some? ==> pos < r.value.1 <= |data|
  {
    Counted(data, pos, 1)
  }

  function LongStr(data: seq<byte>, pos: nat): (r: Option<(seq<byte>, nat)>)
    requires pos <= |data|
    ensures r.Some? ==> pos < r.value.1 <= |data|
  {
    Counted(data, pos, 4)
  }

  /** A table with its length, not looked into. */
  function TableRaw(data: seq<byte>, pos: nat): (r: Option<(seq<byte>, nat)>)
    requires pos <= |data|
    ensures r.Some? ==> r.value.1 == pos + |r.value.0| <= |data|
  {
    match Counted(data, pos, 4)
    case None => None
    case Some((_, next)) => Some((data[pos..next], next))
  }

  function CountedBytes(bytes: seq<byte>, width: nat): seq<byte> {
    ToBigEndian(|bytes|, width) + bytes
  }

  predicate IsRawTable(raw: seq<byte>) {
    |raw| >= 4 && BigEndian(raw[..4]) == |raw| - 4
  }

  lemma UnsignedAt(data: seq<byte>, pos: nat, value: nat, width: nat)
    requires At(data, pos, ToBigEndian(value, width)) && value < Pow256(width)
    ensures pos <= |data| && Unsigned(data, pos, width) == Some((value, pos + width))
  {
    BigEndianInverse(value, width);
  }

  /** Counted bytes are read exactly where they were written. */
  lemma CountedIff(data: seq<byte>, pos: nat, bytes: seq<byte>, width: nat)
    requires pos <= |data|
    ensures (Counted(data, pos, width) == Some((bytes, pos + width + |bytes|)))
       <==> (|bytes| < Pow256(width) && At(data, pos, CountedBytes(bytes, width)))
  {
    hide Counted, CountedBytes, At;
    if |bytes| < Pow256(width) && At(data, pos, CountedBytes(bytes, width)) {
      WrittenCounts(data, pos, bytes, width);
    }
    if Counted(data, pos, width) == Some((bytes, pos + width + |bytes|)) {
      CountedIsWritten(data, pos, width);
    }
  }

  lemma WrittenCounts(data: seq<byte>, pos: nat, bytes: seq<byte>, width: nat)
    requires pos <= |data| && |bytes| < Pow256(width) && At(data, pos, CountedBytes(bytes, width))
    ensures Counted(data, pos, width) == Some((bytes, pos + width + |bytes|))
  {
    hide BigEndian, ToBigEndian, Unsigned, At;
    var head := ToBigEndian(|bytes|, width);
    AtConcat(data, pos, head, bytes);
    UnsignedAt(data, pos, |bytes|, width);
    TakeAt(data, pos + width, bytes);
  }

  lemma TakeAt(data: seq<byte>, pos: nat, bytes: seq<byte>)
    requires At(data, pos, bytes)
    ensures pos <= |data| && Take(data, pos, |bytes|) == Some((bytes, pos + |bytes|))
  {
  }

  lemma CountedIsWritten(data: seq<byte>, pos: nat, width: nat)
    requires pos <= |data| && Counted(data, pos, width).Some?
    ensures var bytes := Counted(data, pos, width).value.0;
            |bytes| < Pow256(width) && At(data, pos, CountedBytes(bytes, width))
  {
    hide BigEndian, ToBigEndian, At;
    var bytes := Counted(data, pos, width).value.0;
    ToBigEndianInverse(data[pos..pos + width]);
    SliceStands(data, pos, width);
    SliceStands(data, pos + width, |bytes|);
    AtConcat(data, pos, data[pos..pos + width], bytes);
  }

  lemma SliceStands(data: seq<byte>, pos: nat, length: nat)
    requires pos + length <= |data|
    ensures At(data, pos, data[pos..pos + length])
  {
  }

  lemma RawTableIff(data: seq<byte>, pos: nat, raw: seq<byte>)
    requires pos <= |data|
    ensures (TableRaw(data, pos) == Some((raw, pos + |raw|))) <==> (IsRawTable(raw) && At(data, pos, raw))
  {
    hide BigEndian, ToBigEndian;
    if IsRawTable(raw) && At(data, pos, raw) {
      assert data[pos..pos + 4] == raw[..4];
    }
    if TableRaw(data, pos) == Some((raw, pos + |raw|)) {
      assert raw[..4] == data[pos..pos + 4];
    }
  }

  // ----- the handshake -------------------------------------------------------------------------

  function MethodFrame(channel: nat, classID: nat, methodID: nat, arguments: seq<byte>): Frame {
    MakeFrame(FRAME_METHOD, channel, ToBigEndian(classID, 2) + ToBigEndian(methodID, 2) + arguments)
  }

  /** A connection-class method on channel zero. */
  predicate IsConnectionMethod(frame: Frame, methodID: nat) {
    && frame.typeID == FRAME_METHOD && |frame.payload| >= 4 && frame.channel == 0
    && BigEndian(frame.payload[..2]) == 10 && BigEndian(frame.payload[2..4]) == methodID
  }

  datatype Start = Start(major: byte, minor: byte, properties: seq<byte>, mechanisms: seq<byte>, locales: seq<byte>)

  function StartArguments(s: Start): seq<byte> {
    [s.major, s.minor] + s.properties + CountedBytes(s.mechanisms, 4) + CountedBytes(s.locales, 4)
  }

  function BuildStart(source: Start, mechanisms: seq<byte>, locales: seq<byte>): Option<Frame> {
    if |mechanisms| >= Pow256(4) || |locales| >= Pow256(4) then None
    else Some(MethodFrame(0, 10, 10, StartArguments(source.(mechanisms := mechanisms, locales := locales))))
  }

  function StartFields(data: seq<byte>): Option<Start> {
    if |data| < 2 then None else
    var properties := TableRaw(data, 2);
    if properties.None? then None else
    var mechanisms := LongStr(data, properties.value.1);
    if mechanisms.None? then None else
    var locales := LongStr(data, mechanisms.value.1);
    if locales.None? || locales.value.1 != |data| then None
    else Some(Start(data[0], data[1], properties.value.0, mechanisms.value.0, locales.value.0))
  }

  function ParseStart(frame: Frame): Option<Start> {
    if !IsConnectionMethod(frame, 10) then None else StartFields(frame.payload[4..])
  }

  datatype StartOK = StartOK(properties: seq<byte>, mechanism: seq<byte>, response: seq<byte>, locale: seq<byte>)

  function StartOKArguments(s: StartOK): seq<byte> {
    s.properties + CountedBytes(s.mechanism, 1) + CountedBytes(s.response, 4) + CountedBytes(s.locale, 1)
  }

  function BuildStartOK(s: StartOK): Option<Frame> {
    if |s.mechanism| > 255 || |s.response| >= Pow256(4) || |s.locale| > 255 then None
    else Some(MethodFrame(0, 10, 11, StartOKArguments(s)))
  }

  function StartOKFields(data: seq<byte>): Option<StartOK> {
    var properties := TableRaw(data, 0);
    if properties.None? then None else
    var mechanism := ShortStr(data, properties.value.1);
    if mechanism.None? then None else
    var response := LongStr(data, mechanism.value.1);
    if response.None? then None else
    var locale := ShortStr(data, response.value.1);
    if locale.None? || locale.value.1 != |data| then None
    else Some(StartOK(properties.value.0, mechanism.value.0, response.value.0, locale.value.0))
  }

  function ParseStartOK(frame: Frame): Option<StartOK> {
    if !IsConnectionMethod(frame, 11) then None else StartOKFields(frame.payload[4..])
  }

  function OpenArguments(vhost: seq<byte>): seq<byte> {
    CountedBytes(vhost, 1) + CountedBytes([], 1) + [0]
  }

  function BuildOpen(vhost: seq<byte>): Option<Frame> {
    if |vhost| > 255 then None else Some(MethodFrame(0, 10, 40, OpenArguments(vhost)))
  }

  function OpenHost(data: seq<byte>): Option<seq<byte>> {
    var vhost := ShortStr(data, 0);
    if vhost.None? then None else
    var reserved := ShortStr(data, vhost.value.1);
    if reserved.None? || reserved.value.1 + 1 != |data| then None else Some(vhost.value.0)
  }

  function ParseOpen(frame: Frame): Option<seq<byte>> {
    if !IsConnectionMethod(frame, 40) then None else OpenHost(frame.payload[4..])
  }

  lemma MethodFrameFields(classID: nat, methodID: nat, arguments: seq<byte>)
    requires classID < 0x1_0000 && methodID < 0x1_0000
    ensures var frame := MethodFrame(0, classID, methodID, arguments);
            && |frame.payload| >= 4 && frame.payload[4..] == arguments
            && BigEndian(frame.payload[..2]) == classID && BigEndian(frame.payload[2..4]) == methodID
  {
    hide BigEndian, ToBigEndian;
    Widths();
    BigEndianInverse(classID, 2);
    BigEndianInverse(methodID, 2);
    var payload := MethodFrame(0, classID, methodID, arguments).payload;
    assert payload[..2] == ToBigEndian(classID, 2) && payload[2..4] == ToBigEndian(methodID, 2);
  }

  lemma FieldsAreMethod(frame: Frame, methodID: nat)
    requires IsConnectionMethod(frame, methodID)
    ensures frame.payload == MethodFrame(0, 10, methodID, frame.payload[4..]).payload
  {
    hide BigEndian, ToBigEndian;
    ToBigEndianInverse(frame.payload[..2]);
    ToBigEndianInverse(frame.payload[2..4]);
  }

  /** connection.start is parsed exactly from what building it writes. */
  lemma StartIff(frame: Frame, s: Start)
    ensures ParseStart(frame) == Some(s) <==>
            var built := BuildStart(s, s.mechanisms, s.locales);
            && frame.typeID == FRAME_METHOD && frame.channel == 0
            && IsRawTable(s.properties) && built.Some? && frame.payload == built.value.payload
  {
    hide BigEndian, ToBigEndian, IsRawTable, StartFields, StartArguments, MakeFrame;
    if IsConnectionMethod(frame, 10) {
      FieldsAreMethod(frame, 10);
      StartFieldsIff(frame.payload[4..], s);
    }
    MethodFrameFields(10, 10, StartArguments(s));
    MakeFrameKeeps(FRAME_METHOD, 0, ToBigEndian(10, 2) + ToBigEndian(10, 2) + StartArguments(s));
    StartFieldsIff(StartArguments(s), s);
    assert s.(mechanisms := s.mechanisms, locales := s.locales) == s;
  }

  lemma MakeFrameKeeps(typeID: byte, channel: nat, payload: seq<byte>)
    ensures var frame := MakeFrame(typeID, channel, payload);
            frame.typeID == typeID && frame.channel == channel && frame.payload == payload
  {
  }

  lemma StartFieldsIff(data: seq<byte>, s: Start)
    ensures StartFields(data) == Some(s) <==>
            IsRawTable(s.properties) && |s.mechanisms| < Pow256(4) && |s.locales| < Pow256(4) && data == StartArguments(s)
  {
    hide BigEndian, ToBigEndian, IsRawTable, TableRaw, Counted, CountedBytes, At;
    if |data| >= 2 {
      RawTableIff(data, 2, s.properties);
      var second := 2 + |s.properties|;
      if second <= |data| {
        CountedIff(data, second, s.mechanisms, 4);
        var third := second + 4 + |s.mechanisms|;
        if third <= |data| {
          CountedIff(data, third, s.locales, 4);
        }
      }
    }
    StartLayout(data, s);
  }

  lemma StartLayout(data: seq<byte>, s: Start)
    ensures data == StartArguments(s) <==>
            var second := 2 + |s.properties|;
            var third := second + 4 + |s.mechanisms|;
            && |data| >= 2 && data[0] == s.major && data[1] == s.minor && At(data, 2, s.properties)
            && At(data, second, CountedBytes(s.mechanisms, 4)) && At(data, third, CountedBytes(s.locales, 4))
            && |data| == third + 4 + |s.locales|
  {
    hide ToBigEndian;
    var a, b, c, d := [s.major, s.minor], s.properties, CountedBytes(s.mechanisms, 4), CountedBytes(s.locales, 4);
    AtConcat(data, 0, a, b);
    AtConcat(data, 0, a + b, c);
    AtConcat(data, 0, a + b + c, d);
    assert At(data, 0, a) <==> |data| >= 2 && data[0] == s.major && data[1] == s.minor by {
      assert |data| >= 2 ==> data[0..2] == [data[0], data[1]];
    }
  }

  /** connection.start-ok is parsed exactly from what building it writes. */
  lemma StartOKIff(frame: Frame, s: StartOK)
    ensures ParseStartOK(frame) == Some(s) <==>
            var built := BuildStartOK(s);
            && frame.typeID == FRAME_METHOD && frame.channel == 0
            && IsRawTable(s.properties) && built.Some? && frame.payload == built.value.payload
  {
    hide BigEndian, ToBigEndian, IsRawTable, StartOKFields, StartOKArguments, MakeFrame;
    if IsConnectionMethod(frame, 11) {
      FieldsAreMethod(frame, 11);
      StartOKFieldsIff(frame.payload[4..], s);
    }
    MethodFrameFields(10, 11, StartOKArguments(s));
    MakeFrameKeeps(FRAME_METHOD, 0, ToBigEndian(10, 2) + ToBigEndian(11, 2) + StartOKArguments(s));
    StartOKFieldsIff(StartOKArguments(s), s);
  }

  lemma StartOKFieldsIff(data: seq<byte>, s: StartOK)
    ensures StartOKFields(data) == Some(s) <==>
            && IsRawTable(s.properties) && |s.mechanism| <= 255 && |s.response| < Pow256(4) && |s.locale| <= 255
            && data == StartOKArguments(s)
  {
    hide BigEndian, ToBigEndian, IsRawTable, TableRaw, Counted, CountedBytes, At;
    Widths();
    RawTableIff(data, 0, s.properties);
    var second := |s.properties|;
    if second <= |data| {
      CountedIff(data, second, s.mechanism, 1);
      var third := second + 1 + |s.mechanism|;
      if third <= |data| {
        CountedIff(data, third, s.response, 4);
        var fourth := third + 4 + |s.response|;
        if fourth <= |data| {
          CountedIff(data, fourth, s.locale, 1);
        }
      }
    }
    StartOKLayout(data, s);
  }

  lemma StartOKLayout(data: seq<byte>, s: StartOK)
    ensures data == StartOKArguments(s) <==>
            var second := |s.properties|;
            var third := second + 1 + |s.mechanism|;
            var fourth := third + 4 + |s.response|;
            && At(data, 0, s.properties) && At(data, second, CountedBytes(s.mechanism, 1))
            && At(data, third, CountedBytes(s.response, 4)) && At(data, fourth, CountedBytes(s.locale, 1))
            && |data| == fourth + 1 + |s.locale|
  {
    hide ToBigEndian;
    var a, b, c, d := s.properties, CountedBytes(s.mechanism, 1), CountedBytes(s.response, 4), CountedBytes(s.locale, 1);
    AtConcat(data, 0, a, b);
    AtConcat(data, 0, a + b, c);
    AtConcat(data, 0, a + b + c, d);
  }

  /** connection.open built for a virtual host is parsed as that host; the reserved fields may hold anything. */
  lemma OpenReadsBack(vhost: seq<byte>)
    requires |vhost| <= 255
    ensures BuildOpen(vhost).Some? && ParseOpen(BuildOpen(vhost).value) == Some(vhost)
  {
    hide BigEndian, ToBigEndian;
    var data := OpenArguments(vhost);
    MethodFrameFields(10, 40, data);
    var a, b := CountedBytes(vhost, 1), CountedBytes([], 1);
    AtConcat(data, 0, a, b);
    assert At(data, 0, a + b);
    CountedIff(data, 0, vhost, 1);
    CountedIff(data, |a|, [], 1);
    Widths();
  }
}

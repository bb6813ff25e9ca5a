/** AMQP 0-9-1 methods: which expect a reply, which carry content, and which ask for no reply. */
module AmqpMethods {
  import opened Wrappers
  import opened Bytes

  const FRAME_METHOD: byte := 1
  const FRAME_HEADER: byte := 2
  const FRAME_BODY: byte := 3
  const FRAME_HEARTBEAT: byte := 8

  datatype Frame = Frame(typeID: byte, channel: nat, payload: seq<byte>, raw: seq<byte>)

  datatype Info = Info(classID: nat, methodID: nat, expected: (nat, nat), carriesContent: bool, noWait: bool)

  const UNKNOWN: Info := Info(0, 0, (0, 0), false, false)

  /** The method that answers a synchronous method; (0, 0) for the others and (c, 0) for basic.get. */
  function ExpectedResponse(classID: nat, methodID: nat): (nat, nat) {
    match (classID, methodID)
    case (10, 50) => (10, 51)
    case (20, 10) => (20, 11)
    case (20, 20) => (20, 21)
    case (20, 40) => (20, 41)
    case (40, 10) => (40, 11)
    case (40, 20) => (40, 21)
    case (40, 30) => (40, 31)
    case (40, 40) => (40, 51)
    case (50, 10) => (50, 11)
    case (50, 20) => (50, 21)
    case (50, 30) => (50, 31)
    case (50, 40) => (50, 41)
    case (50, 50) => (50, 51)
    case (60, 10) => (60, 11)
    case (60, 20) => (60, 21)
    case (60, 30) => (60, 31)
    case (60, 70) => (60, 0)
    case (60, 110) => (60, 111)
    case (85, 10) => (85, 11)
    case (90, 10) => (90, 11)
    case (90, 20) => (90, 21)
    case (90, 30) => (90, 31)
    case _ => (0, 0)
  }

  function CarriesContent(classID: nat, methodID: nat): bool {
    classID == 60 && (methodID == 40 || methodID == 50 || methodID == 60 || methodID == 71)
  }

  // ----- the no-wait bit -----------------------------------------------------------------------

  datatype Field = Short | ShortString

  /** The fields before the bit field that holds no-wait, and the bit's index. */
  function NoWaitLayout(classID: nat, methodID: nat): (layout: Option<(seq<Field>, nat)>)
    ensures layout.Some? ==> layout.value.1 < 8
  {
    match (classID, methodID)
    case (40, 10) => Some(([Short, ShortString, ShortString], 4))
    case (40, 20) => Some(([Short, ShortString], 1))
    case (40, 30) => Some(([Short, ShortString, ShortString, ShortString], 0))
    case (40, 40) => Some(([Short, ShortString, ShortString, ShortString], 0))
    case (50, 10) => Some(([Short, ShortString], 4))
    case (50, 20) => Some(([Short, ShortString, ShortString, ShortString], 0))
    case (50, 30) => Some(([Short, ShortString], 0))
    case (50, 40) => Some(([Short, ShortString], 2))
    case (60, 20) => Some(([Short, ShortString, ShortString], 3))
    case (60, 30) => Some(([ShortString], 0))
    case (85, 10) => Some(([], 0))
    case _ => None
  }

  /** Where the cursor stands after a field, read or not: a short string that is cut off leaves it after its length. */
  function SkipField(data: seq<byte>, pos: nat, field: Field): (next: nat)
    requires pos <= |data|
    ensures pos <= next <= |data|
  {
    match field
    case Short => if |data| - pos < 2 then pos else pos + 2
    case ShortString =>
      if pos == |data| then pos
      else if |data| - pos - 1 < data[pos] then pos + 1
      else pos + 1 + data[pos]
  }

  function SkipFields(data: seq<byte>, pos: nat, fields: seq<Field>): (next: nat)
    requires pos <= |data|
    ensures pos <= next <= |data|
    decreases |fields|
  {
    if fields == [] then pos else SkipFields(data, SkipField(data, pos, fields[0]), fields[1..])
  }

  function NoWait(classID: nat, methodID: nat, arguments: seq<byte>): bool {
    match NoWaitLayout(classID, methodID)
    case None => false
    case Some((fields, index)) =>
      var pos := SkipFields(arguments, 0, fields);
      pos < |arguments| && Bit(arguments[pos], index)
  }

  function InspectMethod(frame: Frame): Info {
    if frame.typeID != FRAME_METHOD || |frame.payload| < 4 then UNKNOWN
    else
      var classID, methodID := BigEndian(frame.payload[..2]), BigEndian(frame.payload[2..4]);
      Info(classID, methodID, ExpectedResponse(classID, methodID), CarriesContent(classID, methodID),
           NoWait(classID, methodID, frame.payload[4..]))
  }

  /** A method that will be answered. */
  predicate Synchronous(info: Info) {
    info.expected.0 != 0 && !info.noWait
  }

  /** basic.get is answered by get-ok or get-empty, any other method by exactly one. */
  predicate Answers(expected: (nat, nat), response: Info) {
    expected.0 == response.classID
    && (expected.1 == response.methodID
        || (expected.1 == 0 && response.classID == 60 && (response.methodID == 71 || response.methodID == 72)))
  }

  // ----- content headers -----------------------------------------------------------------------

  datatype HeaderError = ShortHeader | BadClass | FlagContinuation | CutOff

  datatype PropertyKind = Text | Table | Octet | LongLong

  /** The basic properties in flag order, from the highest bit down. */
  const PROPERTIES: seq<PropertyKind> :=
    [Text, Text, Table, Octet, Octet, Text, Text, Text, Text, LongLong, Text, Text, Text, Text]

  function SkipProperty(data: seq<byte>, pos: nat, kind: PropertyKind): (next: Option<nat>)
    requires pos <= |data|
    ensures next.Some? ==> pos <= next.value <= |data|
  {
    var length :=
      match kind
      case Octet => 1
      case LongLong => 8
      case Text => if pos == |data| then 1 else 1 + data[pos]
      case Table => if |data| - pos < 4 then 4 else 4 + BigEndian(data[pos..pos + 4]);
    if |data| - pos < length then None else Some(pos + length)
  }

  function SkipProperties(data: seq<byte>, pos: nat, flags: nat, index: nat): Option<nat>
    requires pos <= |data| && index <= |PROPERTIES|
    decreases |PROPERTIES| - index
  {
    if index == |PROPERTIES| then Some(pos)
    else if !Bit(flags, 15 - index) then SkipProperties(data, pos, flags, index + 1)
    else
      match SkipProperty(data, pos, PROPERTIES[index])
      case None => None
      case Some(next) => SkipProperties(data, next, flags, index + 1)
  }

  /** The body size a content header announces. */
  function InspectContentHeader(frame: Frame): Result<nat, HeaderError> {
    var data := frame.payload;
    if |data| < 14 then Err(ShortHeader)
    else if BigEndian(data[..2]) != 60 || BigEndian(data[2..4]) != 0 then Err(BadClass)
    else
      var flags := BigEndian(data[12..14]);
      if flags % 2 != 0 then Err(FlagContinuation)
      else if SkipProperties(data, 14, flags, 0).None? then Err(CutOff)
      else Ok(BigEndian(data[4..12]))
  }
}

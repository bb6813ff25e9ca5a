/** The packets of a MySQL reply one by one: how the reader takes them, and how they are laid out. */
module MysqlReplies {
  import opened Wrappers
  import opened Bytes
  import opened Streams
  import opened MysqlPacket

  datatype Capabilities = Capabilities(deprecateEOF: bool, protocol41: bool, transactions: bool)

  const MAX_COLUMNS: nat := 1048576

  // ----- the reader's view ---------------------------------------------------------------------

  predicate IsError(payload: seq<byte>) {
    payload != [] && payload[0] == 0xff
  }

  predicate IsEOF(payload: seq<byte>) {
    payload != [] && payload[0] == 0xfe && |payload| < 9
  }

  predicate IsRow(payload: seq<byte>) {
    !IsError(payload) && !IsEOF(payload)
  }

  predicate More(status: nat) {
    status / 8 % 2 == 1
  }

  function ParseOk(payload: seq<byte>, caps: Capabilities): Option<nat> {
    if payload == [] || (payload[0] != 0x00 && payload[0] != 0xfe) then None
    else
      match ReadLenenc(payload, 1)
      case Err(_) => None
      case Ok(affected) =>
        match ReadLenenc(payload, affected.next)
        case Err(_) => None
        case Ok(lastID) =>
          var offset := lastID.next;
          if caps.protocol41 then
            if |payload| - offset < 4 then None else Some(LittleEndian(payload[offset..offset + 2]))
          else if caps.transactions then
            if |payload| - offset < 2 then None else Some(LittleEndian(payload[offset..offset + 2]))
          else Some(0)
  }

  /** The status of a terminator; one that cannot be read counts as zero. */
  function TerminatorStatus(payload: seq<byte>, caps: Capabilities): nat {
    if IsEOF(payload) && !caps.deprecateEOF then
      if |payload| < 5 then 0 else LittleEndian(payload[3..5])
    else
      match ParseOk(payload, caps)
      case Some(status) => status
      case None => 0
  }

  function ColumnCount(payload: seq<byte>): Option<nat> {
    match ReadLenenc(payload, 0)
    case Err(_) => None
    case Ok(p) => if p.result.None? || p.result.value > MAX_COLUMNS then None else p.result
  }

  // ----- how they are laid out -----------------------------------------------------------------

  /** SERVER_MORE_RESULTS_EXISTS: bit 3 of the status. */
  predicate Announces(status: nat) {
    status % 16 >= 8
  }

  lemma MoreIff(status: nat)
    ensures More(status) <==> Announces(status)
  {
  }

  /** The status flags where the capabilities have them, and zero where they have none. */
  predicate StatusIn(tail: seq<byte>, caps: Capabilities, status: nat) {
    if caps.protocol41 then |tail| >= 4 && status == tail[0] as nat + 256 * tail[1] as nat
    else if caps.transactions then |tail| >= 2 && status == tail[0] as nat + 256 * tail[1] as nat
    else status == 0
  }

  /** An OK packet: the affected rows, the last insert id, and the status at the front of what follows. */
  ghost predicate IsOk(packet: seq<byte>, caps: Capabilities, status: nat) {
    exists header, affected, lastID, tail :: IsOkOf(packet, caps, status, header, affected, lastID, tail)
  }

  ghost predicate IsOkOf(packet: seq<byte>, caps: Capabilities, status: nat, header: byte, affected: seq<byte>,
                         lastID: seq<byte>, tail: seq<byte>) {
    && packet == [header] + affected + lastID + tail && (header == 0x00 || header == 0xfe)
    && IsLenenc(affected) && IsLenenc(lastID) && StatusIn(tail, caps, status)
  }

  /** The status of what ends the rows: an EOF packet, or an OK packet under an EOF header; zero if none is there. */
  ghost predicate Ends(end: seq<byte>, caps: Capabilities, status: nat) {
    && IsEOF(end)
    && if caps.deprecateEOF then IsOk(end, caps, status) || (status == 0 && forall other :: !IsOk(end, caps, other))
       else status == if |end| < 5 then 0 else end[3] as nat + 256 * end[4] as nat
  }

  /** The number of columns in front of a result set. */
  ghost predicate Counts(packet: seq<byte>, columns: nat) {
    columns <= MAX_COLUMNS && exists length :: 0 < length <= |packet| && Spelled(packet[..length], Some(columns))
  }

  lemma TwoBytes(data: seq<byte>, from: nat)
    requires from + 2 <= |data|
    ensures LittleEndian(data[from..from + 2]) == data[from] as nat + 256 * data[from + 1] as nat
  {
    ByteOrders(data[from], data[from + 1]);
    assert data[from..from + 2] == [data[from], data[from + 1]];
  }

  lemma LenencStands(data: seq<byte>, offset: nat, bytes: seq<byte>)
    requires At(data, offset, bytes) && IsLenenc(bytes)
    ensures ReadLenenc(data, offset).Ok? && ReadLenenc(data, offset).value.next == offset + |bytes|
  {
    hide ReadLenenc;
    var value :| Spelled(bytes, value);
    LenencIff(data, offset, value, offset + |bytes|);
  }

  lemma LenencTaken(data: seq<byte>, offset: nat)
    requires offset <= |data| && ReadLenenc(data, offset).Ok?
    ensures IsLenenc(data[offset..ReadLenenc(data, offset).value.next])
  {
    hide Spelled, ReadLenenc;
    var p := ReadLenenc(data, offset).value;
    LenencIff(data, offset, p.result, p.next);
  }

  lemma OkIsRead(packet: seq<byte>, caps: Capabilities, status: nat, header: byte, affected: seq<byte>, lastID: seq<byte>,
                 tail: seq<byte>)
    requires IsOkOf(packet, caps, status, header, affected, lastID, tail)
    ensures ParseOk(packet, caps) == Some(status)
  {
    hide ReadLenenc, IsLenenc, LittleEndian;
    var offset := 1 + |affected| + |lastID|;
    assert packet[1..1 + |affected|] == affected && packet[1 + |affected|..offset] == lastID && packet[offset..] == tail;
    LenencStands(packet, 1, affected);
    LenencStands(packet, 1 + |affected|, lastID);
    if |tail| >= 2 {
      TwoBytes(packet, offset);
    }
  }

  /** The status of an OK packet is the one it was laid out with, and nothing else is taken for an OK packet. */
  lemma ParseOkIff(packet: seq<byte>, caps: Capabilities, status: nat)
    ensures ParseOk(packet, caps) == Some(status) <==> IsOk(packet, caps, status)
  {
    hide ReadLenenc, IsLenenc, LittleEndian;
    if ParseOk(packet, caps) == Some(status) {
      var first := ReadLenenc(packet, 1).value.next;
      var offset := ReadLenenc(packet, first).value.next;
      LenencTaken(packet, 1);
      LenencTaken(packet, first);
      if |packet| - offset >= 2 {
        TwoBytes(packet, offset);
      }
      assert packet == [packet[0]] + packet[1..first] + packet[first..offset] + packet[offset..];
      assert IsOkOf(packet, caps, status, packet[0], packet[1..first], packet[first..offset], packet[offset..]);
    }
    if IsOk(packet, caps, status) {
      var header, affected, lastID, tail :| IsOkOf(packet, caps, status, header, affected, lastID, tail);
      OkIsRead(packet, caps, status, header, affected, lastID, tail);
    }
  }

  lemma TerminatorIff(end: seq<byte>, caps: Capabilities, status: nat)
    ensures Ends(end, caps, status) <==> IsEOF(end) && TerminatorStatus(end, caps) == status
  {
    hide ParseOk, IsOk, LittleEndian;
    if IsEOF(end) && !caps.deprecateEOF {
      if |end| >= 5 {
        TwoBytes(end, 3);
      }
    } else {
      forall other: nat ensures ParseOk(end, caps) == Some(other) <==> IsOk(end, caps, other) {
        ParseOkIff(end, caps, other);
      }
      if ParseOk(end, caps).Some? {
        assert IsOk(end, caps, ParseOk(end, caps).value);
      }
    }
  }

  lemma ColumnCountIff(packet: seq<byte>, columns: nat)
    ensures ColumnCount(packet) == Some(columns) <==> Counts(packet, columns)
  {
    hide ReadLenenc, Spelled;
    if ColumnCount(packet) == Some(columns) {
      var next := ReadLenenc(packet, 0).value.next;
      LenencIff(packet, 0, Some(columns), next);
      assert packet[0..next] == packet[..next];
    }
    if Counts(packet, columns) {
      var length :| 0 < length <= |packet| && Spelled(packet[..length], Some(columns));
      LenencIff(packet, 0, Some(columns), length);
      assert packet[0..length] == packet[..length];
    }
  }

  // ----- packets a server builds ---------------------------------------------------------------

  function OkPacket(affected: nat, lastID: nat, status: nat, warnings: nat, text: seq<byte>): seq<byte>
    requires affected < Pow256(8) && lastID < Pow256(8)
  {
    [0x00] + Lenenc(affected) + Lenenc(lastID) + ([status % 256, status / 256 % 256, warnings % 256, warnings / 256 % 256] + text)
  }

  function EofPacket(warnings: nat, status: nat): seq<byte> {
    [0xfe, warnings % 256, warnings / 256 % 256, status % 256, status / 256 % 256]
  }

  lemma LenencIsLenenc(value: nat)
    requires value < Pow256(8)
    ensures IsLenenc(Lenenc(value))
  {
    hide Lenenc, Spelled;
    LenencReadsBack(Lenenc(value), 0, value);
    LenencTaken(Lenenc(value), 0);
    assert Lenenc(value)[0..|Lenenc(value)|] == Lenenc(value);
  }

  lemma BuiltOk(affected: nat, lastID: nat, status: nat, warnings: nat, text: seq<byte>, caps: Capabilities)
    requires affected < Pow256(8) && lastID < Pow256(8) && status < 0x1_0000
    requires caps.protocol41 || caps.transactions
    ensures IsOk(OkPacket(affected, lastID, status, warnings, text), caps, status)
  {
    hide Lenenc, IsLenenc;
    LenencIsLenenc(affected);
    LenencIsLenenc(lastID);
    assert IsOkOf(OkPacket(affected, lastID, status, warnings, text), caps, status, 0x00, Lenenc(affected), Lenenc(lastID),
                  [status % 256, status / 256 % 256, warnings % 256, warnings / 256 % 256] + text);
  }

  lemma BuiltEof(warnings: nat, status: nat, caps: Capabilities)
    requires status < 0x1_0000 && !caps.deprecateEOF
    ensures Ends(EofPacket(warnings, status), caps, status)
  {
  }
}

/** The cursor that reads AMQP fields in place; each read is the function of the same bytes and position. */
module AmqpCursor {
  import opened Wrappers
  import opened Bytes
  import opened AmqpMethods
  import opened AmqpWire
  import opened AmqpTable

  class FieldCursor {
    const data: seq<byte>
    var pos: nat

    /** The cursor stays inside the data, whatever is read. */
    ghost predicate Valid()
      reads this
    {
      pos <= |data|
    }

    /** From `start` the cursor has read what the function reads, or has failed with it. */
    ghost predicate Followed<T>(start: nat, r: Option<T>, expected: Option<(T, nat)>)
      reads this
    {
      && Valid() && start <= pos
      && match expected
         case None => r == None
         case Some((value, next)) => r == Some(value) && pos == next
    }

    constructor (data: seq<byte>)
      ensures Valid() && this.data == data && pos == 0
    {
      this.data := data;
      pos := 0;
    }

    method ReadBytes(length: nat) returns (r: Option<seq<byte>>)
      requires Valid()
      modifies this
      ensures Followed(old(pos), r, Take(data, old(pos), length))
    {
      if |data| - pos < length {
        return None;
      }
      r := Some(data[pos..pos + length]);
      pos := pos + length;
    }

    method ReadUnsigned(width: nat) returns (r: Option<nat>)
      requires Valid()
      modifies this
      ensures Followed(old(pos), r, Unsigned(data, old(pos), width))
    {
      var bytes := ReadBytes(width);
      if bytes.None? {
        return None;
      }
      return Some(BigEndian(bytes.value));
    }

    method ReadCounted(width: nat) returns (r: Option<seq<byte>>)
      requires Valid()
      modifies this
      ensures Followed(old(pos), r, Counted(data, old(pos), width))
    {
      var length := ReadUnsigned(width);
      if length.None? {
        return None;
      }
      r := ReadBytes(length.value);
    }

    method ReadTableRaw() returns (r: Option<seq<byte>>)
      requires Valid()
      modifies this
      ensures Followed(old(pos), r, TableRaw(data, old(pos)))
    {
      var start := pos;
      var body := ReadCounted(4);
      if body.None? {
        return None;
      }
      return Some(data[start..pos]);
    }

    method ReadScalar(kind: char) returns (r: Option<Decoded>)
      requires Valid()
      modifies this
      ensures Followed(old(pos), r, ScalarAt(data, old(pos), kind))
    {
      hide BigEndian, Unsigned, Counted, Take, Signed;
      if Integer(kind).Some? {
        var (signed, width) := Integer(kind).value;
        var value := ReadUnsigned(width);
        return if value.None? then None else Some(Number(kind, if signed then Signed(value.value, width) else value.value));
      }
      match kind {
        case 't' =>
          var value := ReadUnsigned(1);
          return if value.None? then None else Some(Flag(value.value != 0));
        case 'f' =>
          var value := ReadUnsigned(4);
          return if value.None? then None else Some(Float('f', value.value));
        case 'd' =>
          var value := ReadUnsigned(8);
          return if value.None? then None else Some(Float('d', value.value));
        case 'D' =>
          if pos == |data| {
            return None;
          }
          var scale := data[pos];
          pos := pos + 1;
          var value := ReadUnsigned(4);
          return if value.None? then None else Some(Fixed(scale, Signed(value.value, 4)));
        case 's' =>
          var value := ReadCounted(1);
          return if value.None? then None else Some(Decoded.Text(value.value));
        case 'S' =>
          var value := ReadCounted(4);
          return if value.None? then None else Some(Decoded.Text(value.value));
        case 'x' =>
          var value := ReadCounted(4);
          return if value.None? then None else Some(Binary(|value.value|));
        case 'T' =>
          var value := ReadUnsigned(8);
          return if value.None? then None else Some(Time(Signed(value.value, 8)));
        case 'V' => return Some(Nothing);
        case _ => return None;
      }
    }

    /** A length, checked against what remains; the position it reaches. */
    method ReadSpan() returns (end: Option<nat>)
      requires Valid()
      modifies this
      ensures Valid() && old(pos) <= pos
      ensures match Span(data, old(pos))
              case None => end == None
              case Some((next, stop)) => end == Some(stop) && pos == next && stop <= |data|
    {
      var length := ReadUnsigned(4);
      if length.None? || length.value > |data| - pos {
        return None;
      }
      return Some(pos + length.value);
    }

    method ReadFieldValue(kind: char, depth: nat) returns (r: Option<Decoded>)
      requires Valid() && depth <= MAX_DEPTH + 1
      modifies this
      ensures Followed(old(pos), r, FieldValue(data, old(pos), kind, depth))
      decreases MAX_DEPTH + 1 - depth, |data| - pos, 0
    {
      hide Span, ScalarAt, Entries, Items;
      if depth > MAX_DEPTH {
        return None;
      }
      if kind == 'F' {
        var end := ReadSpan();
        if end.None? {
          return None;
        }
        var entries := ReadEntries(end.value, depth + 1);
        return if entries.None? then None else Some(Decoded.Table(entries.value));
      }
      if kind == 'A' {
        var end := ReadSpan();
        if end.None? {
          return None;
        }
        var items := ReadItems(end.value, depth);
        return if items.None? then None else Some(List(items.value));
      }
      r := ReadScalar(kind);
    }

    method ReadEntries(end: nat, depth: nat) returns (r: Option<map<seq<byte>, Decoded>>)
      requires Valid() && depth <= MAX_DEPTH + 1
      modifies this
      ensures Followed(old(pos), r, Entries(data, old(pos), end, depth, map[]))
      decreases MAX_DEPTH + 1 - depth, |data| - pos, 1
    {
      hide ShortStr, FieldValue;
      if depth > MAX_DEPTH {
        return None;
      }
      var result: map<seq<byte>, Decoded> := map[];
      while pos < end
        invariant Valid() && old(pos) <= pos
        invariant Entries(data, pos, end, depth, result) == Entries(data, old(pos), end, depth, map[])
        decreases |data| - pos
      {
        if |result| >= MAX_ENTRIES {
          return None;
        }
        var name := ReadShortStr();
        if name.None? {
          return None;
        }
        if pos == |data| {
          return None;
        }
        var kind := data[pos] as char;
        pos := pos + 1;
        var value := ReadFieldValue(kind, depth);
        if value.None? {
          return None;
        }
        result := result[name.value := value.value];
      }
      if pos != end {
        return None;
      }
      return Some(result);
    }

    method ReadShortStr() returns (r: Option<seq<byte>>)
      requires Valid()
      modifies this
      ensures Followed(old(pos), r, ShortStr(data, old(pos)))
    {
      r := ReadCounted(1);
    }

    method ReadItems(end: nat, depth: nat) returns (r: Option<seq<Decoded>>)
      requires Valid() && depth <= MAX_DEPTH && end <= |data|
      modifies this
      ensures Followed(old(pos), r, Items(data, old(pos), end, depth, []))
      decreases MAX_DEPTH + 1 - depth, |data| - pos, 1
    {
      hide FieldValue;
      var values: seq<Decoded> := [];
      while pos < end
        invariant Valid() && old(pos) <= pos
        invariant Items(data, pos, end, depth, values) == Items(data, old(pos), end, depth, [])
        decreases |data| - pos
      {
        var kind := data[pos] as char;
        pos := pos + 1;
        var item := ReadFieldValue(kind, depth + 1);
        if item.None? {
          return None;
        }
        values := values + [item.value];
      }
      return Some(values);
    }
  }

  method Decode(raw: seq<byte>) returns (r: Option<map<seq<byte>, Decoded>>)
    ensures r == DecodeTable(raw)
  {
    hide Entries, Unsigned;
    var cursor := new FieldCursor(raw);
    var length := cursor.ReadUnsigned(4);
    if length.None? || length.value != |raw| - cursor.pos {
      return None;
    }
    r := cursor.ReadEntries(cursor.pos + length.value, 0);
  }

  method ReadStart(frame: Frame) returns (r: Option<Start>)
    ensures r == ParseStart(frame)
  {
    hide BigEndian, Counted, TableRaw;
    if !IsConnectionMethod(frame, 10) {
      return None;
    }
    var cursor := new FieldCursor(frame.payload[4..]);
    if |cursor.data| < 2 {
      return None;
    }
    var major, minor := cursor.data[0], cursor.data[1];
    cursor.pos := 2;
    var properties := cursor.ReadTableRaw();
    if properties.None? {
      return None;
    }
    var mechanisms := cursor.ReadCounted(4);
    if mechanisms.None? {
      return None;
    }
    var locales := cursor.ReadCounted(4);
    if locales.None? || cursor.pos != |cursor.data| {
      return None;
    }
    return Some(Start(major, minor, properties.value, mechanisms.value, locales.value));
  }

  method ReadStartOK(frame: Frame) returns (r: Option<StartOK>)
    ensures r == ParseStartOK(frame)
  {
    hide BigEndian, Counted, TableRaw;
    if !IsConnectionMethod(frame, 11) {
      return None;
    }
    var cursor := new FieldCursor(frame.payload[4..]);
    var properties := cursor.ReadTableRaw();
    if properties.None? {
      return None;
    }
    var mechanism := cursor.ReadCounted(1);
    if mechanism.None? {
      return None;
    }
    var response := cursor.ReadCounted(4);
    if response.None? {
      return None;
    }
    var locale := cursor.ReadCounted(1);
    if locale.None? || cursor.pos != |cursor.data| {
      return None;
    }
    return Some(StartOK(properties.value, mechanism.value, response.value, locale.value));
  }

  method ReadOpen(frame: Frame) returns (r: Option<seq<byte>>)
    ensures r == ParseOpen(frame)
  {
    hide BigEndian, Counted;
    if !IsConnectionMethod(frame, 40) {
      return None;
    }
    var cursor := new FieldCursor(frame.payload[4..]);
    var vhost := cursor.ReadCounted(1);
    if vhost.None? {
      return None;
    }
    var reserved := cursor.ReadCounted(1);
    if reserved.None? || cursor.pos + 1 != |cursor.data| {
      return None;
    }
    return vhost;
  }
}

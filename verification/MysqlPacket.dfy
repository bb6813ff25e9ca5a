/** MySQL framing: logical packets over physical packets of at most 2^24-1 bytes, and length-encoded integers. */
module MysqlPacket {
  import opened Wrappers
  import opened Bytes
  import opened Streams

  const MAX_PAYLOAD: nat := 0xffffff

  datatype Error = UnexpectedEnd | BadSequence | NotAnInteger

  datatype Parsed<+T> = Parsed(result: T, next: nat)

  /** What the proxy keeps of a logical packet. */
  datatype Logical = Logical(sequence: byte, payload: seq<byte>, size: nat, truncated: bool, nextSequence: byte)

  function Next(sequence: byte): byte {
    (sequence + 1) % 256
  }

  // ----- the format ----------------------------------------------------------------------------

  function PacketBytes(sequence: byte, payload: seq<byte>): (bytes: seq<byte>)
    requires |payload| <= MAX_PAYLOAD
    ensures |bytes| == 4 + |payload|
  {
    ToLittleEndian(|payload|, 3) + [sequence] + payload
  }

  /** The physical packets of a logical packet; one of exactly 2^24-1 bytes is followed by another. */
  function Physical(sequence: byte, payload: seq<byte>): (bytes: seq<byte>)
    ensures |bytes| >= 4 + |payload|
    decreases |payload|
  {
    if |payload| < MAX_PAYLOAD then PacketBytes(sequence, payload)
    else PacketBytes(sequence, payload[..MAX_PAYLOAD]) + Physical(Next(sequence), payload[MAX_PAYLOAD..])
  }

  function NextSequence(sequence: byte, size: nat): byte {
    (sequence + size / MAX_PAYLOAD + 1) % 256
  }

  /** The proxy's view of a logical packet. */
  function ViewOf(sequence: byte, payload: seq<byte>): Logical {
    Logical(sequence, Prefix(payload), |payload|, |payload| > CAPTURE_LIMIT, NextSequence(sequence, |payload|))
  }

  // ----- reading -------------------------------------------------------------------------------

  function ParsePacket(s: seq<byte>, pos: nat): (r: Result<Parsed<(byte, seq<byte>)>, Error>)
    requires pos <= |s|
    ensures r.Ok? ==> r.value.next == pos + 4 + |r.value.result.1| <= |s| && |r.value.result.1| <= MAX_PAYLOAD
  {
    if |s| - pos < 4 then Err(UnexpectedEnd)
    else
      var length := LittleEndian(s[pos..pos + 3]);
      Widths();
      if |s| - pos - 4 < length then Err(UnexpectedEnd)
      else Ok(Parsed((s[pos + 3], s[pos + 4..pos + 4 + length]), pos + 4 + length))
  }

  /** The whole payload of the logical packet at `pos`. */
  function ParseLogical(s: seq<byte>, pos: nat, expected: byte): (r: Result<Parsed<seq<byte>>, Error>)
    requires pos <= |s|
    ensures r.Ok? ==> pos + 4 <= r.value.next <= |s|
    decreases |s| - pos
  {
    var packet :- ParsePacket(s, pos);
    if packet.result.0 != expected then Err(BadSequence)
    else if |packet.result.1| < MAX_PAYLOAD then Ok(Parsed(packet.result.1, packet.next))
    else
      var rest :- ParseLogical(s, packet.next, Next(expected));
      Ok(Parsed(packet.result.1 + rest.result, rest.next))
  }

  /** The header: the length in three bytes, the least significant first, and the sequence number. */
  lemma PacketInFull(sequence: byte, payload: seq<byte>)
    requires |payload| < MAX_PAYLOAD
    ensures Physical(sequence, payload) == [|payload| % 256, |payload| / 256 % 256, |payload| / 0x1_0000, sequence] + payload
  {
    var n := |payload|;
    assert ToLittleEndian(n / 256 / 256, 1) == [n / 256 / 256 % 256] + ToLittleEndian(n / 256 / 256 / 256, 0);
    assert ToLittleEndian(n / 256, 2) == [n / 256 % 256] + ToLittleEndian(n / 256 / 256, 1);
    assert ToLittleEndian(n, 3) == [n % 256] + ToLittleEndian(n / 256, 2);
    assert n / 256 / 256 == n / 0x1_0000 && n / 0x1_0000 < 256;
  }

  lemma PacketIff(s: seq<byte>, pos: nat, sequence: byte, payload: seq<byte>, next: nat)
    requires pos <= |s|
    ensures ParsePacket(s, pos) == Ok(Parsed((sequence, payload), next))
       <==> |payload| <= MAX_PAYLOAD && At(s, pos, PacketBytes(sequence, payload)) && next == pos + 4 + |payload|
  {
    Widths();
    if ParsePacket(s, pos) == Ok(Parsed((sequence, payload), next)) {
      LengthBytes(s[pos..pos + 3]);
      assert s[pos..next] == s[pos..pos + 3] + [s[pos + 3]] + s[pos + 4..next];
    }
    if |payload| <= MAX_PAYLOAD && At(s, pos, PacketBytes(sequence, payload)) {
      var bytes := PacketBytes(sequence, payload);
      LittleEndianInverse(|payload|, 3);
      assert s[pos..pos + 3] == bytes[..3] == ToLittleEndian(|payload|, 3);
      assert s[pos + 3] == bytes[3] == sequence;
      assert s[pos + 4..pos + 4 + |payload|] == bytes[4..] == payload;
    }
  }

  lemma {:induction false} LengthBytes(data: seq<byte>)
    ensures ToLittleEndian(LittleEndian(data), |data|) == data
  {
    if data != [] {
      LengthBytes(data[1..]);
      assert LittleEndian(data) % 256 == data[0] && LittleEndian(data) / 256 == LittleEndian(data[1..]);
    }
  }

  lemma {:induction false} LogicalSound(s: seq<byte>, pos: nat, expected: byte)
    requires pos <= |s| && ParseLogical(s, pos, expected).Ok?
    ensures var p := ParseLogical(s, pos, expected).value;
            At(s, pos, Physical(expected, p.result)) && p.next == pos + |Physical(expected, p.result)|
    decreases |s| - pos
  {
    hide At, PacketBytes, ParsePacket;
    var packet := ParsePacket(s, pos).value;
    PacketIff(s, pos, expected, packet.result.1, packet.next);
    if |packet.result.1| == MAX_PAYLOAD {
      LogicalSound(s, packet.next, Next(expected));
      var rest := ParseLogical(s, packet.next, Next(expected)).value.result;
      var whole := packet.result.1 + rest;
      assert whole[..MAX_PAYLOAD] == packet.result.1 && whole[MAX_PAYLOAD..] == rest;
      AtConcat(s, pos, PacketBytes(expected, packet.result.1), Physical(Next(expected), rest));
    }
  }

  lemma {:induction false} LogicalComplete(s: seq<byte>, pos: nat, expected: byte, payload: seq<byte>)
    requires pos <= |s| && At(s, pos, Physical(expected, payload))
    ensures ParseLogical(s, pos, expected) == Ok(Parsed(payload, pos + |Physical(expected, payload)|))
    decreases |payload|
  {
    hide At, PacketBytes, ParsePacket;
    if |payload| < MAX_PAYLOAD {
      PacketIff(s, pos, expected, payload, pos + 4 + |payload|);
    } else {
      var first, rest := payload[..MAX_PAYLOAD], payload[MAX_PAYLOAD..];
      AtConcat(s, pos, PacketBytes(expected, first), Physical(Next(expected), rest));
      PacketIff(s, pos, expected, first, pos + 4 + MAX_PAYLOAD);
      AtLength(s, pos + 4 + MAX_PAYLOAD, Physical(Next(expected), rest));
      LogicalComplete(s, pos + 4 + MAX_PAYLOAD, Next(expected), rest);
      assert first + rest == payload;
    }
  }

  lemma AtLength(s: seq<byte>, pos: nat, bytes: seq<byte>)
    requires At(s, pos, bytes)
    ensures pos + |bytes| <= |s|
  {
  }

  /** A logical packet is read exactly where its physical packets stand. */
  lemma LogicalIff(s: seq<byte>, pos: nat, expected: byte, payload: seq<byte>, next: nat)
    requires pos <= |s|
    ensures ParseLogical(s, pos, expected) == Ok(Parsed(payload, next))
       <==> At(s, pos, Physical(expected, payload)) && next == pos + |Physical(expected, payload)|
  {
    if ParseLogical(s, pos, expected) == Ok(Parsed(payload, next)) {
      LogicalSound(s, pos, expected);
    }
    if At(s, pos, Physical(expected, payload)) {
      LogicalComplete(s, pos, expected, payload);
    }
  }

  // ----- the loops -----------------------------------------------------------------------------

  method ReadPacket(reader: ByteReader) returns (r: Result<(byte, seq<byte>), Error>)
    requires reader.Valid()
    modifies reader`pos
    ensures reader.Valid()
    ensures match ParsePacket(reader.data, old(reader.pos))
            case Ok(p) => r == Ok(p.result) && reader.pos == p.next
            case Err(e) => r == Err(e)
  {
    var header := reader.ReadFull(4);
    if header.None? {
      return Err(UnexpectedEnd);
    }
    Widths();
    var length := LittleEndian(header.value[..3]);
    assert header.value[..3] == reader.data[old(reader.pos)..old(reader.pos) + 3];
    var payload := reader.ReadFull(length);
    if payload.None? {
      return Err(UnexpectedEnd);
    }
    return Ok((header.value[3], payload.value));
  }

  method WritePacket(sink: ByteSink, sequence: byte, payload: seq<byte>)
    requires |payload| <= MAX_PAYLOAD
    modifies sink
    ensures sink.bytes == old(sink.bytes) + PacketBytes(sequence, payload)
  {
    sink.Write(ToLittleEndian(|payload|, 3) + [sequence]);
    sink.Write(payload);
  }

  /** What has been kept after some payload. */
  lemma KeepMore(before: seq<byte>, more: seq<byte>)
    ensures Prefix(before + more)
         == if |Prefix(before)| < CAPTURE_LIMIT then Prefix(before) + more[..Min(CAPTURE_LIMIT - |Prefix(before)|, |more|)]
            else Prefix(before)
    ensures |before + more| > CAPTURE_LIMIT <==> |before| > CAPTURE_LIMIT || |more| > CAPTURE_LIMIT - |Prefix(before)|
  {
    if |before| >= CAPTURE_LIMIT {
      assert (before + more)[..CAPTURE_LIMIT] == before[..CAPTURE_LIMIT];
      assert |before| == CAPTURE_LIMIT && more == [] ==> before + more == before;
    } else if |before + more| > CAPTURE_LIMIT {
      assert (before + more)[..CAPTURE_LIMIT] == before + more[..CAPTURE_LIMIT - |before|];
    } else {
      assert more[..|more|] == more;
    }
  }

  /** The view after one more physical packet. */
  function Grow(view: Logical, payload: seq<byte>): Logical {
    var remaining := CAPTURE_LIMIT - |view.payload|;
    view.(payload := if remaining > 0 then view.payload + payload[..Min(remaining, |payload|)] else view.payload,
          truncated := view.truncated || |payload| > remaining,
          size := view.size + |payload|,
          nextSequence := Next(view.nextSequence))
  }

  /** The view while only full physical packets have been read. */
  predicate Views(view: Logical, sequence: byte, read: seq<byte>) {
    && |read| % MAX_PAYLOAD == 0
    && view == Logical(sequence, Prefix(read), |read|, |read| > CAPTURE_LIMIT, (sequence + |read| / MAX_PAYLOAD) % 256)
  }

  lemma GrowViews(view: Logical, sequence: byte, read: seq<byte>, payload: seq<byte>)
    requires Views(view, sequence, read) && |payload| <= MAX_PAYLOAD
    ensures if |payload| == MAX_PAYLOAD then Views(Grow(view, payload), sequence, read + payload)
            else Grow(view, payload) == ViewOf(sequence, read + payload)
  {
    hide Prefix;
    KeepMore(read, payload);
    SequenceStep(sequence, |read|, |payload|);
  }

  lemma NothingRead(sequence: byte)
    ensures Views(Logical(sequence, [], 0, false, sequence), sequence, [])
    ensures forall p :: AfterRead([], p) == p
  {
    forall p ensures AfterRead([], p) == p {
      if p.Ok? {
        assert [] + p.value.result == p.value.result;
      }
    }
  }

  /** Reads one logical packet, forwarding its physical packets unchanged when there is a destination. */
  method ReadLogical(reader: ByteReader, destination: ByteSink?, expected: byte) returns (r: Result<Logical, Error>)
    requires reader.Valid()
    modifies reader`pos, destination
    ensures reader.Valid()
    ensures match ParseLogical(reader.data, old(reader.pos), expected)
            case Ok(p) =>
              && r == Ok(ViewOf(expected, p.result)) && reader.pos == p.next
              && (destination != null ==>
                  destination.bytes == old(destination.bytes) + reader.data[old(reader.pos)..reader.pos])
            case Err(e) => r == Err(e)
    ensures destination != null ==> Forwarded(old(destination.bytes), destination.bytes, reader.data, old(reader.pos))
  {
    hide ParsePacket, PacketBytes, Views, Grow;
    ghost var start := reader.pos;
    ghost var whole := ParseLogical(reader.data, start, expected);
    var result := Logical(expected, [], 0, false, expected);
    ghost var read: seq<byte> := [];
    NothingRead(expected);
    while true
      invariant reader.Valid() && start <= reader.pos
      invariant Views(result, expected, read)
      invariant whole == AfterRead(read, ParseLogical(reader.data, reader.pos, result.nextSequence))
      invariant destination != null ==> destination.bytes == old(destination.bytes) + reader.data[start..reader.pos]
      decreases |reader.data| - reader.pos
    {
      ghost var before := reader.pos;
      var packet :- ReadPacket(reader);
      var (sequence, payload) := packet;
      PacketIff(reader.data, before, sequence, payload, reader.pos);
      if sequence != result.nextSequence {
        return Err(BadSequence);
      }
      if destination != null {
        WritePacket(destination, sequence, payload);
        assert reader.data[start..reader.pos] == reader.data[start..before] + PacketBytes(sequence, payload);
      }
      GrowViews(result, expected, read, payload);
      GrowSequence(result, payload);
      result := Grow(result, payload);
      if |payload| < MAX_PAYLOAD {
        return Ok(result);
      }
      AfterReadMore(read, payload, ParseLogical(reader.data, reader.pos, result.nextSequence));
      read := read + payload;
    }
  }

  lemma GrowSequence(view: Logical, payload: seq<byte>)
    ensures Grow(view, payload).nextSequence == Next(view.nextSequence)
  {
  }

  lemma SequenceStep(expected: byte, size: nat, more: nat)
    requires size % MAX_PAYLOAD == 0 && more <= MAX_PAYLOAD
    ensures Next((expected + size / MAX_PAYLOAD) % 256) == (expected + size / MAX_PAYLOAD + 1) % 256
    ensures more == MAX_PAYLOAD ==> (size + more) / MAX_PAYLOAD == size / MAX_PAYLOAD + 1 && (size + more) % MAX_PAYLOAD == 0
    ensures more < MAX_PAYLOAD ==> (size + more) / MAX_PAYLOAD == size / MAX_PAYLOAD
  {
    assert size == MAX_PAYLOAD * (size / MAX_PAYLOAD);
  }

  ghost function AfterRead(read: seq<byte>, rest: Result<Parsed<seq<byte>>, Error>): Result<Parsed<seq<byte>>, Error> {
    if rest.Ok? then Ok(Parsed(read + rest.value.result, rest.value.next)) else rest
  }

  lemma AfterReadMore(read: seq<byte>, payload: seq<byte>, rest: Result<Parsed<seq<byte>>, Error>)
    ensures AfterRead(read + payload, rest) == AfterRead(read, AfterRead(payload, rest))
  {
    if rest.Ok? {
      assert read + payload + rest.value.result == read + (payload + rest.value.result);
    }
  }

  method WriteLogical(sink: ByteSink, sequence: byte, payload: seq<byte>) returns (next: byte)
    modifies sink
    ensures sink.bytes == old(sink.bytes) + Physical(sequence, payload)
    ensures next == NextSequence(sequence, |payload|)
  {
    hide PacketBytes;
    next := sequence;
    var rest := payload;
    while |rest| >= MAX_PAYLOAD
      invariant next == (sequence + (|payload| - |rest|) / MAX_PAYLOAD) % 256
      invariant |rest| <= |payload| && (|payload| - |rest|) % MAX_PAYLOAD == 0
      invariant sink.bytes + Physical(next, rest) == old(sink.bytes) + Physical(sequence, payload)
      decreases |rest|
    {
      SequenceStep(sequence, |payload| - |rest|, MAX_PAYLOAD);
      WritePacket(sink, next, rest[..MAX_PAYLOAD]);
      next := Next(next);
      rest := rest[MAX_PAYLOAD..];
    }
    SequenceStep(sequence, |payload| - |rest|, |rest|);
    WritePacket(sink, next, rest);
    next := Next(next);
  }

  /** What was written reads back, with the bounded view, and is forwarded byte for byte. */
  lemma WrittenReadsBack(s: seq<byte>, pos: nat, sequence: byte, payload: seq<byte>)
    requires At(s, pos, Physical(sequence, payload))
    ensures ParseLogical(s, pos, sequence) == Ok(Parsed(payload, pos + |Physical(sequence, payload)|))
    ensures var view := ViewOf(sequence, payload);
            && view.size == |payload| && view.payload <= payload && |view.payload| == Min(|payload|, CAPTURE_LIMIT)
            && (view.truncated <==> view.payload != payload)
            && view.nextSequence == NextSequence(sequence, |payload|)
  {
    LogicalIff(s, pos, sequence, payload, pos + |Physical(sequence, payload)|);
  }

  // ----- client commands -----------------------------------------------------------------------

  const COM_CHANGE_USER: byte := 0x11

  /** Commands the proxy does not let through. */
  predicate Intercepted(payload: seq<byte>) {
    payload != [] && (payload[0] == COM_CHANGE_USER || payload[0] == 0x12 || payload[0] == 0x15)
  }

  /** The first physical packet of a command. */
  method ReadFirst(reader: ByteReader) returns (r: Result<seq<byte>, Error>)
    requires reader.Valid()
    modifies reader`pos
    ensures reader.Valid()
    ensures match ParsePacket(reader.data, old(reader.pos))
            case Err(e) => r == Err(e)
            case Ok(p) =>
              if p.result.0 != 0 then r == Err(BadSequence)
              else
                && r == Ok(p.result.1) && reader.pos == p.next
                && reader.data[old(reader.pos)..reader.pos] == PacketBytes(0, p.result.1)
  {
    hide ParsePacket, PacketBytes;
    ghost var start := reader.pos;
    var item :- ReadPacket(reader);
    PacketIff(reader.data, start, item.0, item.1, reader.pos);
    return if item.0 != 0 then Err(BadSequence) else Ok(item.1);
  }

  /** What was read since `start` has been written on, or nothing has. */
  ghost predicate Passed(before: seq<byte>, after: seq<byte>, s: seq<byte>, start: nat, pos: nat, intercept: bool) {
    start <= pos <= |s| && after == before + (if intercept then [] else s[start..pos])
  }

  lemma NothingForwarded(before: seq<byte>, s: seq<byte>, start: nat)
    requires start <= |s|
    ensures Forwarded(before, before, s, start)
  {
    assert before + s[start..start] == before;
  }

  lemma PassedFirst(before: seq<byte>, after: seq<byte>, s: seq<byte>, start: nat, pos: nat, intercept: bool)
    requires start <= pos <= |s| && after == if intercept then before else before + s[start..pos]
    ensures Passed(before, after, s, start, pos, intercept)
  {
    assert before + [] == before;
  }

  /** Whatever is passed on next follows what has been, and until then a run of the source stands behind. */
  lemma PassedMore(before: seq<byte>, after: seq<byte>, s: seq<byte>, start: nat, pos: nat, intercept: bool)
    requires Passed(before, after, s, start, pos, intercept)
    ensures Forwarded(before, after, s, start)
    ensures after == before + (if intercept then [] else s[start..pos])
    ensures forall next {:trigger s[pos..next]} :: pos <= next <= |s| ==>
              Passed(before, if intercept then after else after + s[pos..next], s, start, next, intercept)
  {
    forall next | pos <= next <= |s|
      ensures Passed(before, if intercept then after else after + s[pos..next], s, start, next, intercept)
    {
      SlicesJoin(s, start, pos, next);
      assert before + s[start..pos] + s[pos..next] == before + (s[start..pos] + s[pos..next]);
    }
  }

  lemma EmptyViews()
    ensures Views(Logical(0, [], 0, false, 0), 0, [])
  {
  }

  lemma NothingBefore(p: Result<Parsed<seq<byte>>, Error>)
    ensures AfterRead([], p) == p
  {
    if p.Ok? {
      assert [] + p.value.result == p.value.result;
    }
  }

  /** One physical packet of the logical packet being read. */
  lemma StepLogical(s: seq<byte>, pos: nat, expected: byte, read: seq<byte>)
    requires pos <= |s|
    ensures AfterRead(read, ParseLogical(s, pos, expected))
         == match ParsePacket(s, pos)
            case Err(e) => Err(e)
            case Ok(p) =>
              if p.result.0 != expected then Err(BadSequence)
              else if |p.result.1| < MAX_PAYLOAD then Ok(Parsed(read + p.result.1, p.next))
              else AfterRead(read + p.result.1, ParseLogical(s, p.next, Next(expected)))
  {
    hide ParsePacket;
    var packet := ParsePacket(s, pos);
    if packet.Ok? && |packet.value.result.1| == MAX_PAYLOAD {
      AfterReadMore(read, packet.value.result.1, ParseLogical(s, packet.value.next, Next(expected)));
    }
  }

  /** A further physical packet, written on unless the command is intercepted. */
  method ForwardNext(reader: ByteReader, destination: ByteSink, expected: byte, intercept: bool)
    returns (r: Result<seq<byte>, Error>)
    requires reader.Valid()
    modifies reader`pos, destination
    ensures reader.Valid()
    ensures match ParsePacket(reader.data, old(reader.pos))
            case Err(e) => r == Err(e)
            case Ok(p) => if p.result.0 != expected then r == Err(BadSequence) else r == Ok(p.result.1) && reader.pos == p.next
    ensures destination.bytes == if intercept || r.Err? then old(destination.bytes)
                                 else old(destination.bytes) + reader.data[old(reader.pos)..reader.pos]
  {
    hide ParsePacket, PacketBytes;
    ghost var before := reader.pos;
    var item :- ReadPacket(reader);
    PacketIff(reader.data, before, item.0, item.1, reader.pos);
    if item.0 != expected {
      return Err(BadSequence);
    }
    if !intercept {
      WritePacket(destination, item.0, item.1);
    }
    return Ok(item.1);
  }

  /**
   Reads a client command. It agrees with reading a logical packet from sequence 0; an intercepted
   command (0x11, 0x12 or 0x15) is consumed but nothing of it reaches the upstream, any other is forwarded unchanged.
   */
  method ReadClientCommand(reader: ByteReader, destination: ByteSink) returns (r: Result<Logical, Error>)
    requires reader.Valid()
    modifies reader`pos, destination
    ensures reader.Valid()
    ensures match ParseLogical(reader.data, old(reader.pos), 0)
            case Ok(p) =>
              && r == Ok(ViewOf(0, p.result)) && reader.pos == p.next
              && destination.bytes == old(destination.bytes)
                 + (if p.result != [] && p.result[0] in [0x11, 0x12, 0x15] then [] else reader.data[old(reader.pos)..reader.pos])
            case Err(e) => r == Err(e)
    ensures Forwarded(old(destination.bytes), destination.bytes, reader.data, old(reader.pos))
  {
    hide ParsePacket, ParseLogical, Views, Grow, ViewOf, Passed, Forwarded;
    ghost var start := reader.pos;
    ghost var whole := ParseLogical(reader.data, start, 0);
    StepLogical(reader.data, start, 0, []);
    NothingBefore(whole);
    EmptyViews();
    NothingForwarded(destination.bytes, reader.data, start);
    var first :- ReadFirst(reader);
    assert [] + first == first;
    GrowViews(Logical(0, [], 0, false, 0), 0, [], first);
    GrowSequence(Logical(0, [], 0, false, 0), first);
    var result := Grow(Logical(0, [], 0, false, 0), first);
    var intercept := Intercepted(first);
    if !intercept {
      WritePacket(destination, 0, first);
    }
    PassedFirst(old(destination.bytes), destination.bytes, reader.data, start, reader.pos, intercept);
    ghost var read := first;
    var length := |first|;
    while length == MAX_PAYLOAD
      invariant reader.Valid() && start + 4 <= reader.pos && length <= MAX_PAYLOAD
      invariant if length == MAX_PAYLOAD then
                  && read != [] && Views(result, 0, read)
                  && whole == AfterRead(read, ParseLogical(reader.data, reader.pos, result.nextSequence))
                else result == ViewOf(0, read) && whole == Ok(Parsed(read, reader.pos))
      invariant Intercepted(read) == intercept
      invariant Passed(old(destination.bytes), destination.bytes, reader.data, start, reader.pos, intercept)
      decreases |reader.data| - reader.pos
    {
      ghost var before := reader.pos;
      PassedMore(old(destination.bytes), destination.bytes, reader.data, start, before, intercept);
      StepLogical(reader.data, before, result.nextSequence, read);
      var payload :- ForwardNext(reader, destination, result.nextSequence, intercept);
      GrowViews(result, 0, read, payload);
      GrowSequence(result, payload);
      result := Grow(result, payload);
      length := |payload|;
      read := read + payload;
    }
    PassedMore(old(destination.bytes), destination.bytes, reader.data, start, reader.pos, intercept);
    return Ok(result);
  }

  // ----- length-encoded integers and strings ---------------------------------------------------

  /** The value, or None for the NULL marker, and the offset after it. */
  function ReadLenenc(data: seq<byte>, offset: nat): (r: Result<Parsed<Option<nat>>, Error>)
    requires offset <= |data|
    ensures r.Ok? ==> offset < r.value.next <= |data|
  {
    if offset == |data| then Err(UnexpectedEnd)
    else if data[offset] == 0xfb then Ok(Parsed(None, offset + 1))
    else if data[offset] == 0xff then Err(NotAnInteger)
    else if data[offset] < 0xfb then Ok(Parsed(Some(data[offset]), offset + 1))
    else
      var width := if data[offset] == 0xfc then 2 else if data[offset] == 0xfd then 3 else 8;
      if |data| - offset - 1 < width then Err(UnexpectedEnd)
      else Ok(Parsed(Some(LittleEndian(data[offset + 1..offset + 1 + width])), offset + 1 + width))
  }

  function ReadLenencBytes(data: seq<byte>, offset: nat): (r: Result<Parsed<Option<seq<byte>>>, Error>)
    requires offset <= |data|
    ensures r.Ok? ==> offset < r.value.next <= |data|
  {
    var length :- ReadLenenc(data, offset);
    match length.result
    case None => Ok(Parsed(None, length.next))
    case Some(n) =>
      if n > |data| - length.next then Err(UnexpectedEnd)
      else Ok(Parsed(Some(data[length.next..length.next + n]), length.next + n))
  }

  /** The shortest encoding of an integer below 2^64. */
  function Lenenc(value: nat): (bytes: seq<byte>)
    requires value < Pow256(8)
    ensures bytes != []
  {
    if value < 0xfb then [value]
    else if value < Pow256(2) then [0xfc] + ToLittleEndian(value, 2)
    else if value < Pow256(3) then [0xfd] + ToLittleEndian(value, 3)
    else [0xfe] + ToLittleEndian(value, 8)
  }

  function LenencBytes(value: Option<seq<byte>>): (bytes: seq<byte>)
    requires value.Some? ==> |value.value| < Pow256(8)
    ensures bytes != []
  {
    match value
    case None => [0xfb]
    case Some(data) => Lenenc(|data|) + data
  }

  lemma LenencReadsBack(data: seq<byte>, offset: nat, value: nat)
    requires value < Pow256(8) && At(data, offset, Lenenc(value))
    ensures ReadLenenc(data, offset) == Ok(Parsed(Some(value), offset + |Lenenc(value)|))
  {
    Widths();
    var bytes := Lenenc(value);
    assert forall i :: 0 <= i < |bytes| ==> data[offset + i] == bytes[i];
    if value >= 0xfb {
      var width := if value < Pow256(2) then 2 else if value < Pow256(3) then 3 else 8;
      assert data[offset + 1..offset + 1 + width] == bytes[1..] == ToLittleEndian(value, width);
      LittleEndianInverse(value, width);
    }
  }

  /** Every form of an integer, not just the shortest: one byte, or a marker and two, three or eight; 0xfb alone is NULL. */
  predicate Spelled(bytes: seq<byte>, value: Option<nat>) {
    match value
    case None => bytes == [0xfb]
    case Some(n) =>
      || (|bytes| == 1 && bytes[0] < 0xfb && n == bytes[0])
      || (|bytes| == 3 && bytes[0] == 0xfc && n == bytes[1] as nat + 256 * bytes[2] as nat)
      || (|bytes| == 4 && bytes[0] == 0xfd && n == bytes[1] as nat + 256 * bytes[2] as nat + 0x1_0000 * bytes[3] as nat)
      || (|bytes| == 9 && bytes[0] == 0xfe && n == LittleEndian(bytes[1..]))
  }

  ghost predicate IsLenenc(bytes: seq<byte>) {
    exists value :: Spelled(bytes, value)
  }

  lemma LittleEndianOfThree(a: byte, b: byte, c: byte)
    ensures LittleEndian([a, b, c]) == a + 256 * b + 0x1_0000 * c
  {
    assert [a, b, c][1..] == [b, c];
    ByteOrders(b, c);
  }

  lemma ReadIsSpelled(data: seq<byte>, offset: nat)
    requires offset <= |data| && ReadLenenc(data, offset).Ok?
    ensures var p := ReadLenenc(data, offset).value; Spelled(data[offset..p.next], p.result)
  {
    hide LittleEndian;
    var p := ReadLenenc(data, offset).value;
    var bytes := data[offset..p.next];
    assert bytes[0] == data[offset] && bytes[1..] == data[offset + 1..p.next];
    if data[offset] == 0xfc {
      assert bytes[1..] == [bytes[1], bytes[2]];
      ByteOrders(bytes[1], bytes[2]);
    } else if data[offset] == 0xfd {
      assert bytes[1..] == [bytes[1], bytes[2], bytes[3]];
      LittleEndianOfThree(bytes[1], bytes[2], bytes[3]);
    }
  }

  lemma SpelledIsRead(data: seq<byte>, offset: nat, value: Option<nat>, next: nat)
    requires offset < next <= |data| && Spelled(data[offset..next], value)
    ensures ReadLenenc(data, offset) == Ok(Parsed(value, next))
  {
    hide LittleEndian;
    var bytes := data[offset..next];
    assert bytes[0] == data[offset] && bytes[1..] == data[offset + 1..next];
    if data[offset] == 0xfc {
      assert bytes[1..] == [bytes[1], bytes[2]];
      ByteOrders(bytes[1], bytes[2]);
    } else if data[offset] == 0xfd {
      assert bytes[1..] == [bytes[1], bytes[2], bytes[3]];
      LittleEndianOfThree(bytes[1], bytes[2], bytes[3]);
    }
  }

  /** A length-encoded integer is read exactly where one of its forms stands. */
  lemma LenencIff(data: seq<byte>, offset: nat, value: Option<nat>, next: nat)
    requires offset <= |data|
    ensures ReadLenenc(data, offset) == Ok(Parsed(value, next))
       <==> offset < next <= |data| && Spelled(data[offset..next], value)
  {
    if ReadLenenc(data, offset) == Ok(Parsed(value, next)) {
      ReadIsSpelled(data, offset);
    }
    if offset < next <= |data| && Spelled(data[offset..next], value) {
      SpelledIsRead(data, offset, value, next);
    }
  }

  lemma LenencBytesReadsBack(data: seq<byte>, offset: nat, value: Option<seq<byte>>)
    requires value.Some? ==> |value.value| < Pow256(8)
    requires At(data, offset, LenencBytes(value))
    ensures ReadLenencBytes(data, offset) == Ok(Parsed(value, offset + |LenencBytes(value)|))
  {
    match value {
      case None => assert data[offset] == data[offset..offset + 1][0];
      case Some(content) =>
        AtConcat(data, offset, Lenenc(|content|), content);
        LenencReadsBack(data, offset, |content|);
    }
  }
}

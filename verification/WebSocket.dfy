/**
 Forwarding WebSocket frames (RFC 6455 sections 5.2 and 5.3): the bytes go on as they came, in
 chunks and through partial writes, while a bounded prefix of the unmasked payload is kept.
 */
module WebSocket {
  import opened Wrappers
  import opened Bytes
  import opened Streams

  const CHUNK: nat := 32 * 1024
  const MAX_LENGTH: nat := 0x7fff_ffff_ffff_ffff

  // ----- exclusive or on bytes -----------------------------------------------------------------

  /** The exclusive or of the low `n` bits. */
  function XorBits(a: nat, b: nat, n: nat): (r: nat)
    ensures r < Pow2(n)
  {
    if n == 0 then 0 else (a % 2 + b % 2) % 2 + 2 * XorBits(a / 2, b / 2, n - 1)
  }

  lemma {:induction false} XorBitsCancels(a: nat, b: nat, n: nat)
    requires a < Pow2(n)
    ensures XorBits(XorBits(a, b, n), b, n) == a
  {
    if n > 0 {
      var low, rest := (a % 2 + b % 2) % 2, XorBits(a / 2, b / 2, n - 1);
      LowBit(low, rest);
      LowBitCancels(a % 2, b % 2);
      XorBitsCancels(a / 2, b / 2, n - 1);
      assert XorBits(low + 2 * rest, b, n) == (low + b % 2) % 2 + 2 * XorBits(rest, b / 2, n - 1);
    }
  }

  lemma LowBit(low: nat, rest: nat)
    requires low < 2
    ensures (low + 2 * rest) / 2 == rest && (low + 2 * rest) % 2 == low
  {
  }

  lemma LowBitCancels(a: nat, b: nat)
    requires a < 2 && b < 2
    ensures ((a + b) % 2 + b) % 2 == a
  {
  }

  function Xor(a: byte, b: byte): byte {
    assert Pow2(8) == 256;
    XorBits(a, b, 8)
  }

  /** Octet i of the payload meets octet i modulo 4 of the mask; `offset` octets went before. */
  function Unmask(payload: seq<byte>, mask: seq<byte>, offset: nat): (r: seq<byte>)
    requires |mask| == 4
    ensures |r| == |payload|
  {
    seq(|payload|, i requires 0 <= i < |payload| => Xor(payload[i], mask[(offset + i) % 4]))
  }

  /** Bit by bit, one set and the other not. */
  lemma {:induction false} XorBitsAt(a: nat, b: nat, n: nat, k: nat)
    requires k < n
    ensures Bit(XorBits(a, b, n), k) <==> Bit(a, k) != Bit(b, k)
    decreases n
  {
    var low, rest := (a % 2 + b % 2) % 2, XorBits(a / 2, b / 2, n - 1);
    LowBit(low, rest);
    if k > 0 {
      XorBitsAt(a / 2, b / 2, n - 1, k - 1);
      assert Bit(low + 2 * rest, k) == Bit(rest, k - 1);
    }
  }

  lemma {:induction false} BitsDetermine(a: nat, b: nat, n: nat)
    requires a < Pow2(n) && b < Pow2(n) && forall k :: 0 <= k < n ==> (Bit(a, k) <==> Bit(b, k))
    ensures a == b
  {
    if n > 0 {
      assert Bit(a, 0) <==> Bit(b, 0);
      forall k | 0 <= k < n - 1 ensures Bit(a / 2, k) <==> Bit(b / 2, k) {
        assert Bit(a, k + 1) <==> Bit(b, k + 1);
      }
      BitsDetermine(a / 2, b / 2, n - 1);
    }
  }

  /** Octet i of what is sent is octet i of the payload, with the bits turned that are set in octet i modulo 4 of the mask. */
  ghost predicate IsMasked(plain: seq<byte>, mask: seq<byte>, sent: seq<byte>)
    requires |mask| == 4
  {
    |sent| == |plain| && forall i :: 0 <= i < |plain| ==> Turned(plain[i], mask[i % 4], sent[i])
  }

  predicate Turned(a: byte, b: byte, r: byte) {
    forall k :: 0 <= k < 8 ==> (Bit(r, k) <==> Bit(a, k) != Bit(b, k))
  }

  lemma XorIff(a: byte, b: byte, r: byte)
    ensures r == Xor(a, b) <==> Turned(a, b, r)
  {
    assert Pow2(8) == 256;
    forall k | 0 <= k < 8 ensures Bit(Xor(a, b), k) <==> Bit(a, k) != Bit(b, k) {
      XorBitsAt(a, b, 8, k);
    }
    if Turned(a, b, r) {
      BitsDetermine(r, Xor(a, b), 8);
    }
  }

  lemma MaskedIff(plain: seq<byte>, mask: seq<byte>, sent: seq<byte>)
    requires |mask| == 4
    ensures sent == Unmask(plain, mask, 0) <==> IsMasked(plain, mask, sent)
  {
    hide Xor, Turned;
    if |sent| == |plain| {
      forall i | 0 <= i < |plain| ensures sent[i] == Unmask(plain, mask, 0)[i] <==> Turned(plain[i], mask[i % 4], sent[i]) {
        XorIff(plain[i], mask[i % 4], sent[i]);
      }
    }
  }

  lemma UnmaskConcat(a: seq<byte>, b: seq<byte>, mask: seq<byte>, offset: nat)
    requires |mask| == 4
    ensures Unmask(a + b, mask, offset) == Unmask(a, mask, offset) + Unmask(b, mask, offset + |a|)
  {
    hide Xor;
    var left, right := Unmask(a + b, mask, offset), Unmask(a, mask, offset) + Unmask(b, mask, offset + |a|);
    forall i | 0 <= i < |left|
      ensures left[i] == right[i]
    {
      assert i >= |a| ==> offset + |a| + (i - |a|) == offset + i;
    }
  }

  /** Masking twice gives the payload back. */
  lemma UnmaskCancels(payload: seq<byte>, mask: seq<byte>)
    requires |mask| == 4
    ensures Unmask(Unmask(payload, mask, 0), mask, 0) == payload
  {
    forall i | 0 <= i < |payload|
      ensures Unmask(Unmask(payload, mask, 0), mask, 0)[i] == payload[i]
    {
      assert Pow2(8) == 256;
      XorBitsCancels(payload[i], mask[i % 4], 8);
    }
  }

  // ----- the capture ---------------------------------------------------------------------------

  function Bounded(s: seq<byte>, limit: nat): seq<byte> {
    if |s| <= limit then s else s[..limit]
  }

  class CaptureBuffer {
    const limit: nat
    var bytes: seq<byte>
    var total: nat
    var truncated: bool

    /** What the buffer holds after `all` has been written, in any pieces. */
    ghost predicate Holds(all: seq<byte>)
      reads this
    {
      bytes == Bounded(all, limit) && total == |all| && (truncated <==> |all| > limit)
    }

    constructor (limit: nat)
      ensures this.limit == limit && Holds([])
    {
      this.limit := limit;
      bytes, total, truncated := [], 0, false;
    }

    method Write(data: seq<byte>, ghost all: seq<byte>)
      requires Holds(all)
      modifies this
      ensures Holds(all + data)
    {
      total := total + |data|;
      var remaining := limit - |bytes|;
      if remaining > 0 {
        bytes := bytes + data[..Min(remaining, |data|)];
      }
      if |data| > remaining {
        truncated := true;
      }
    }
  }

  // ----- writing -------------------------------------------------------------------------------

  /** A destination that may take only part of what it is given, or fail. */
  class PartialWriter {
    var bytes: seq<byte>

    constructor ()
      ensures bytes == []
    {
      bytes := [];
    }

    method Write(data: seq<byte>) returns (count: nat, failed: bool)
      modifies this
      ensures count <= |data| && bytes == old(bytes) + data[..count]
    {
      count :| count <= |data|;
      failed := *;
      bytes := bytes + data[..count];
    }
  }

  /** All of the data, or a prefix of it and failure. */
  method WriteAll(writer: PartialWriter, data: seq<byte>) returns (ok: bool)
    modifies writer
    ensures ok ==> writer.bytes == old(writer.bytes) + data
    ensures exists k: nat :: k <= |data| && writer.bytes == old(writer.bytes) + data[..k]
  {
    var written := 0;
    while written < |data|
      invariant written <= |data| && writer.bytes == old(writer.bytes) + data[..written]
    {
      ghost var before := writer.bytes;
      var count, failed := writer.Write(data[written..]);
      assert data[..written] + data[written..][..count] == data[..written + count];
      if failed {
        return false;
      }
      if count == 0 {
        return false;
      }
      written := written + count;
    }
    assert data[..written] == data;
    return true;
  }

  // ----- frames --------------------------------------------------------------------------------

  datatype Frame = Frame(fin: bool, rsv: nat, opcode: nat, mask: Option<seq<byte>>, payload: seq<byte>)

  datatype FrameError = CutShort | NotMinimal | BadLength | WriteFailed

  /** The payload's length, and where the header goes on. */
  function LengthAt(data: seq<byte>, pos: nat): (r: Result<(nat, nat), FrameError>)
    requires pos + 2 <= |data|
    ensures r.Ok? ==> r.value.0 <= MAX_LENGTH && pos + 2 <= r.value.1 <= |data|
  {
    var code, next := data[pos + 1] % 128, pos + 2;
    if code < 126 then Ok((code, next))
    else if code == 126 then
      if |data| - next < 2 then Err(CutShort)
      else
        var length := BigEndian(data[next..next + 2]);
        if length < 126 then Err(NotMinimal) else (Widths(); Ok((length, next + 2)))
    else
      if |data| - next < 8 then Err(CutShort)
      else
        var length := BigEndian(data[next..next + 8]);
        if length > MAX_LENGTH || length < 65536 then Err(BadLength) else Ok((length, next + 8))
  }

  datatype Header = Header(fin: bool, rsv: nat, opcode: nat, length: nat, mask: Option<seq<byte>>)

  function HeaderAt(data: seq<byte>, pos: nat): (r: Result<(Header, nat), FrameError>)
    requires pos <= |data|
    ensures r.Ok? ==> pos < r.value.1 <= |data|
    ensures r.Ok? && r.value.0.mask.Some? ==> |r.value.0.mask.value| == 4
  {
    if |data| - pos < 2 then Err(CutShort) else
    var length := LengthAt(data, pos);
    if length.Err? then Err(length.error) else
    var next := length.value.1;
    var masked := data[pos + 1] >= 128;
    if masked && |data| - next < 4 then Err(CutShort)
    else Ok((Header(data[pos] >= 128, data[pos] / 16 % 8, data[pos] % 16, length.value.0,
                    if masked then Some(data[next..next + 4]) else None),
             if masked then next + 4 else next))
  }

  /** The frame at `pos`, and where it ends. */
  function FrameAt(data: seq<byte>, pos: nat): (r: Result<(Frame, nat), FrameError>)
    requires pos <= |data|
    ensures r.Ok? ==> pos < r.value.1 <= |data|
    ensures r.Ok? && r.value.0.mask.Some? ==> |r.value.0.mask.value| == 4
  {
    var header := HeaderAt(data, pos);
    if header.Err? then Err(header.error) else
    var (h, next) := header.value;
    if |data| - next < h.length then Err(CutShort)
    else Ok((Frame(h.fin, h.rsv, h.opcode, h.mask, data[next..next + h.length]), next + h.length))
  }

  /** The payload as the application sees it. */
  function Plain(payload: seq<byte>, mask: Option<seq<byte>>): seq<byte>
    requires mask.Some? ==> |mask.value| == 4
  {
    if mask.Some? then Unmask(payload, mask.value, 0) else payload
  }

  method ReadLength(source: ByteReader, ghost start: nat, code: nat) returns (r: Result<(nat, seq<byte>), FrameError>)
    requires source.Valid() && source.pos == start + 2 && code == source.data[start + 1] % 128
    modifies source`pos
    ensures source.Valid()
    ensures match LengthAt(source.data, start)
            case Ok((length, next)) => r == Ok((length, source.data[start + 2..next])) && source.pos == next
            case Err(error) => r == Err(error)
  {
    hide BigEndian;
    if code == 126 {
      var extended := source.ReadFull(2);
      if extended.None? {
        return Err(CutShort);
      }
      var length := BigEndian(extended.value);
      if length < 126 {
        return Err(NotMinimal);
      }
      return Ok((length, extended.value));
    } else if code == 127 {
      var extended := source.ReadFull(8);
      if extended.None? {
        return Err(CutShort);
      }
      var length := BigEndian(extended.value);
      if length > MAX_LENGTH || length < 65536 {
        return Err(BadLength);
      }
      return Ok((length, extended.value));
    }
    assert source.data[start + 2..start + 2] == [];
    return Ok((code, []));
  }

  method ReadHeader(source: ByteReader) returns (r: Result<(Header, seq<byte>), FrameError>)
    requires source.Valid()
    modifies source`pos
    ensures source.Valid()
    ensures match HeaderAt(source.data, old(source.pos))
            case Ok((header, next)) => r == Ok((header, source.data[old(source.pos)..next])) && source.pos == next
            case Err(error) => r == Err(error)
  {
    hide LengthAt;
    ghost var start := source.pos;
    var head := source.ReadFull(2);
    if head.None? {
      return Err(CutShort);
    }
    var first := head.value;
    var length := ReadLength(source, start, first[1] % 128);
    if length.Err? {
      return Err(length.error);
    }
    ghost var middle := source.pos;
    var bytes := first + length.value.1;
    assert bytes == source.data[start..middle];
    var mask := None;
    if first[1] >= 128 {
      mask := source.ReadFull(4);
      if mask.None? {
        return Err(CutShort);
      }
      bytes := bytes + mask.value;
      assert bytes == source.data[start..source.pos];
    }
    return Ok((Header(first[0] >= 128, first[0] / 16 % 8, first[0] % 16, length.value.0, mask), bytes));
  }

  method UnmaskChunk(data: seq<byte>, mask: seq<byte>, offset: nat) returns (decoded: seq<byte>)
    requires |mask| == 4
    ensures decoded == Unmask(data, mask, offset)
  {
    hide Xor;
    var buffer := new byte[|data|](_ => 0);
    for index := 0 to |data|
      invariant forall j :: 0 <= j < index ==> buffer[j] == Xor(data[j], mask[(offset + j) % 4])
    {
      buffer[index] := Xor(data[index], mask[(offset + index) % 4]);
    }
    return buffer[..];
  }

  /** What has been written is what was read from `start`. */
  ghost predicate Relayed(before: seq<byte>, after: seq<byte>, data: seq<byte>, start: nat, k: nat) {
    start + k <= |data| && after == before + data[start..start + k]
  }

  lemma RelayedPrefix(before: seq<byte>, after: seq<byte>, data: seq<byte>, start: nat, end: nat, k: nat, end2: nat)
    requires start <= end <= end2 <= |data| && k <= end2 - end
    requires after == before + data[start..end] + data[end..end2][..k]
    ensures Relayed(before, after, data, start, end - start + k)
  {
    assert data[start..end] + data[end..end2][..k] == data[start..end + k];
  }

  /** All from `start` to `pos` has been written, nothing else. */
  ghost predicate Sent(before: seq<byte>, after: seq<byte>, data: seq<byte>, start: nat, pos: nat) {
    start <= pos <= |data| && after == before + data[start..pos]
  }

  ghost function Between(data: seq<byte>, from: nat, to: nat): seq<byte> {
    if from <= to <= |data| then data[from..to] else []
  }

  lemma ChunkSent(before: seq<byte>, after: seq<byte>, data: seq<byte>, start: nat, at: nat, next: nat)
    requires start <= at <= next <= |data| && after == before + data[start..at] + data[at..next]
    ensures Sent(before, after, data, start, next)
  {
    SlicesJoin(data, start, at, next);
    assert before + data[start..at] + data[at..next] == before + (data[start..at] + data[at..next]);
  }

  lemma BetweenJoins(data: seq<byte>, body: nat, at: nat, next: nat)
    requires body <= at <= next <= |data|
    ensures Between(data, body, at) + data[at..next] == Between(data, body, next)
    ensures |Between(data, body, at)| == at - body
  {
    SlicesJoin(data, body, at, next);
  }

  lemma SentIsRelayed(before: seq<byte>, after: seq<byte>, data: seq<byte>, start: nat, pos: nat)
    requires Sent(before, after, data, start, pos)
    ensures exists k: nat :: Relayed(before, after, data, start, k)
  {
    assert Relayed(before, after, data, start, pos - start);
  }

  /** One chunk of the body: read, kept in plain form, written. */
  method ForwardChunk(destination: PartialWriter, source: ByteReader, capture: CaptureBuffer, mask: Option<seq<byte>>,
                      offset: nat, chunk: nat, ghost before: seq<byte>, ghost start: nat, ghost body: nat)
    returns (r: Option<FrameError>)
    requires source.Valid() && (mask.Some? ==> |mask.value| == 4)
    requires start <= body && source.pos == body + offset && Sent(before, destination.bytes, source.data, start, source.pos)
    requires capture.Holds(Plain(Between(source.data, body, source.pos), mask))
    modifies destination, source`pos, capture
    ensures source.Valid()
    ensures match r
            case None =>
              && source.pos == old(source.pos) + chunk
              && Sent(before, destination.bytes, source.data, start, source.pos)
              && capture.Holds(Plain(Between(source.data, body, source.pos), mask))
            case Some(CutShort) => |source.data| - old(source.pos) < chunk
            case Some(error) => error == WriteFailed && |source.data| - old(source.pos) >= chunk
    ensures exists k: nat :: Relayed(before, destination.bytes, source.data, start, k)
  {
    hide Unmask, Plain, Between;
    ghost var at, sent := source.pos, destination.bytes;
    var read := source.ReadFull(chunk);
    if read.None? {
      SentIsRelayed(before, sent, source.data, start, at);
      return Some(CutShort);
    }
    var data := read.value;
    BetweenJoins(source.data, body, at, source.pos);
    KeepChunk(capture, data, mask, offset, Between(source.data, body, at));
    var ok := WriteAll(destination, data);
    ghost var k: nat :| k <= |data| && destination.bytes == sent + data[..k];
    RelayedPrefix(before, destination.bytes, source.data, start, at, k, source.pos);
    if !ok {
      return Some(WriteFailed);
    }
    ChunkSent(before, destination.bytes, source.data, start, at, source.pos);
    return None;
  }

  /** A chunk in plain form joins what the capture holds. */
  method KeepChunk(capture: CaptureBuffer, data: seq<byte>, mask: Option<seq<byte>>, offset: nat, ghost all: seq<byte>)
    requires (mask.Some? ==> |mask.value| == 4) && offset == |all| && capture.Holds(Plain(all, mask))
    modifies capture
    ensures capture.Holds(Plain(all + data, mask))
  {
    hide Unmask;
    if mask.Some? {
      UnmaskConcat(all, data, mask.value, 0);
      var decoded := UnmaskChunk(data, mask.value, offset);
      capture.Write(decoded, Plain(all, mask));
    } else {
      capture.Write(data, all);
    }
  }

  lemma NothingYet(data: seq<byte>, at: nat, mask: Option<seq<byte>>)
    requires at <= |data| && (mask.Some? ==> |mask.value| == 4)
    ensures Plain(Between(data, at, at), mask) == []
  {
  }

  /** The body, in chunks of at most 32 KiB. */
  method ForwardBody(destination: PartialWriter, source: ByteReader, capture: CaptureBuffer, header: Header,
                     ghost start: nat,
                     ghost before: seq<byte>) returns (r: Option<FrameError>)
    requires source.Valid() && start <= source.pos && capture.Holds([])
    requires header.mask.Some? ==> |header.mask.value| == 4
    requires destination.bytes == before + source.data[start..source.pos]
    modifies destination, source`pos, capture
    ensures source.Valid()
    ensures exists k: nat :: Relayed(before, destination.bytes, source.data, start, k)
    ensures |source.data| - old(source.pos) < header.length ==> r.Some?
    ensures r.Some? && r.value == CutShort ==> |source.data| - old(source.pos) < header.length
    ensures r.Some? ==> r.value == CutShort || r.value == WriteFailed
    ensures r.None? ==> var body, next := old(source.pos), old(source.pos) + header.length;
                        && source.pos == next <= |source.data|
                        && destination.bytes == before + source.data[start..next]
                        && capture.Holds(Plain(source.data[body..next], header.mask))
  {
    hide Plain, Relayed;
    NothingYet(source.data, source.pos, header.mask);
    r := ForwardChunks(destination, source, capture, header.mask, header.length, before, start);
  }

  method ForwardChunks(destination: PartialWriter, source: ByteReader, capture: CaptureBuffer, mask: Option<seq<byte>>,
                       length: nat, ghost before: seq<byte>, ghost start: nat) returns (r: Option<FrameError>)
    requires source.Valid() && (mask.Some? ==> |mask.value| == 4) && start <= source.pos
    requires Sent(before, destination.bytes, source.data, start, source.pos)
    requires capture.Holds(Plain(Between(source.data, source.pos, source.pos), mask))
    modifies destination, source`pos, capture
    ensures source.Valid()
    ensures exists k: nat :: Relayed(before, destination.bytes, source.data, start, k)
    ensures match r
            case None =>
              && source.pos == old(source.pos) + length
              && Sent(before, destination.bytes, source.data, start, source.pos)
              && capture.Holds(Plain(Between(source.data, old(source.pos), source.pos), mask))
            case Some(CutShort) => |source.data| - old(source.pos) < length
            case Some(error) => error == WriteFailed
  {
    hide Plain, Relayed, Sent, Between;
    ghost var body := source.pos;
    var remaining: nat, offset: nat := length, 0;
    SentIsRelayed(before, destination.bytes, source.data, start, body);
    while remaining > 0
      invariant source.Valid() && offset + remaining == length && source.pos == body + offset
      invariant Sent(before, destination.bytes, source.data, start, source.pos)
      invariant capture.Holds(Plain(Between(source.data, body, source.pos), mask))
      invariant exists k: nat :: Relayed(before, destination.bytes, source.data, start, k)
      decreases remaining
    {
      var chunk := if remaining < CHUNK then remaining else CHUNK;
      r := ForwardChunk(destination, source, capture, mask, offset, chunk, before, start, body);
      if r.Some? {
        return;
      }
      offset := offset + chunk;
      remaining := remaining - chunk;
    }
    return None;
  }

  /**
   A forwarded frame is the frame that stood in the source; every byte of it, and no other, has
   been written, and the capture is the bounded prefix of its plain payload.
   */
  method ForwardFrame(destination: PartialWriter, source: ByteReader) returns (r: Result<Header, FrameError>,
                      capture: CaptureBuffer)
    requires source.Valid()
    modifies destination, source`pos
    ensures source.Valid() && fresh(capture) && capture.limit == 256 * 1024
    ensures exists k: nat :: Relayed(old(destination.bytes), destination.bytes, source.data, old(source.pos), k)
    ensures r.Ok? ==> var frame := FrameAt(source.data, old(source.pos));
                      && frame.Ok? && source.pos == frame.value.1
                      && r.value == Header(frame.value.0.fin, frame.value.0.rsv, frame.value.0.opcode,
                                           |frame.value.0.payload|, frame.value.0.mask)
                      && destination.bytes == old(destination.bytes) + source.data[old(source.pos)..source.pos]
                      && capture.Holds(Plain(frame.value.0.payload, frame.value.0.mask))
    ensures r.Err? && r.error != WriteFailed ==> FrameAt(source.data, old(source.pos)) == Err(r.error)
    ensures FrameAt(source.data, old(source.pos)).Err? ==> r.Err?
  {
    hide HeaderAt;
    ghost var start, before := source.pos, destination.bytes;
    capture := new CaptureBuffer(CAPTURE_LIMIT);
    var head := ReadHeader(source);
    if head.Err? {
      assert Relayed(before, destination.bytes, source.data, start, 0);
      return Err(head.error), capture;
    }
    var (header, bytes) := head.value;
    ghost var body := source.pos;
    var ok := WriteAll(destination, bytes);
    if !ok {
      ghost var k: nat :| k <= |bytes| && destination.bytes == before + bytes[..k];
      assert source.data[start..body][..k] == source.data[start..start + k];
      assert Relayed(before, destination.bytes, source.data, start, k);
      return Err(WriteFailed), capture;
    }
    var failed := ForwardBody(destination, source, capture, header, start, before);
    if failed.Some? {
      return Err(failed.value), capture;
    }
    return Ok(header), capture;
  }

  // ----- the wire format -----------------------------------------------------------------------

  predicate Legal(f: Frame) {
    f.rsv < 8 && f.opcode < 16 && |f.payload| <= MAX_LENGTH && (f.mask.Some? ==> |f.mask.value| == 4)
  }

  /** The length in the fewest bytes, RFC 6455 section 5.2; the first byte also tells whether there is a mask. */
  function LengthBytes(length: nat, masked: bool): seq<byte>
    requires length <= MAX_LENGTH
  {
    var bit := if masked then 128 else 0;
    if length < 126 then [bit + length]
    else if length < 65536 then [bit + 126] + ToBigEndian(length, 2)
    else [bit + 127] + ToBigEndian(length, 8)
  }

  function HeaderBytes(f: Frame): seq<byte>
    requires Legal(f)
  {
    [(if f.fin then 128 else 0) + f.rsv * 16 + f.opcode] + LengthBytes(|f.payload|, f.mask.Some?)
    + (if f.mask.Some? then f.mask.value else [])
  }

  function FrameBytes(f: Frame): seq<byte>
    requires Legal(f)
  {
    HeaderBytes(f) + f.payload
  }

  function HeaderOf(f: Frame): Header {
    Header(f.fin, f.rsv, f.opcode, |f.payload|, f.mask)
  }

  lemma CodeOf(code: nat, masked: bool)
    requires code < 128
    ensures var first := (if masked then 128 else 0) + code;
            first % 128 == code && (first >= 128 <==> masked)
  {
  }

  lemma LengthReads(data: seq<byte>, pos: nat, length: nat, masked: bool)
    requires length <= MAX_LENGTH && pos + 2 <= |data| && At(data, pos + 1, LengthBytes(length, masked))
    ensures LengthAt(data, pos) == Ok((length, pos + 1 + |LengthBytes(length, masked)|))
    ensures data[pos + 1] >= 128 <==> masked
  {
    hide BigEndian, ToBigEndian;
    Widths();
    var bytes := LengthBytes(length, masked);
    assert data[pos + 1] == data[pos + 1..pos + 1 + |bytes|][0] == bytes[0];
    var code := if length < 126 then length else if length < 65536 then 126 else 127;
    CodeOf(code, masked);
    assert data[pos + 1] == (if masked then 128 else 0) + code;
    if length >= 65536 {
      BigEndianInverse(length, 8);
      SliceOfSlice(data, pos + 1, pos + 1 + |bytes|, 1, 9);
      assert bytes[1..9] == ToBigEndian(length, 8) == data[pos + 2..pos + 10];
    } else if length >= 126 {
      BigEndianInverse(length, 2);
      SliceOfSlice(data, pos + 1, pos + 1 + |bytes|, 1, 3);
      assert bytes[1..3] == ToBigEndian(length, 2) == data[pos + 2..pos + 4];
    }
  }

  lemma LengthIsWritten(data: seq<byte>, pos: nat)
    requires pos + 2 <= |data| && LengthAt(data, pos).Ok?
    ensures var (length, next) := LengthAt(data, pos).value;
            next == pos + 1 + |LengthBytes(length, data[pos + 1] >= 128)|
            && At(data, pos + 1, LengthBytes(length, data[pos + 1] >= 128))
  {
    hide BigEndian, ToBigEndian;
    Widths();
    var (length, next) := LengthAt(data, pos).value;
    if length >= 126 {
      ToBigEndianInverse(data[pos + 2..next]);
    }
    assert data[pos + 1..next] == [data[pos + 1]] + data[pos + 2..next];
  }

  /** Three reserved bits, four bits of opcode, a length below 2^63, and a mask of four bytes if there is one. */
  lemma LegalIff(f: Frame)
    ensures Legal(f) <==> f.rsv < 8 && f.opcode < 16 && |f.payload| < 0x8000_0000_0000_0000 && (f.mask.None? || |f.mask.value| == 4)
  {
  }

  /** The frames accepted are exactly the legal ones, their length written in the fewest bytes. */
  lemma FrameIff(data: seq<byte>, pos: nat, f: Frame, next: nat)
    requires pos <= |data|
    ensures FrameAt(data, pos) == Ok((f, next)) <==> Legal(f) && At(data, pos, FrameBytes(f)) && next == pos + |FrameBytes(f)|
  {
    hide HeaderAt, HeaderBytes, At;
    if Legal(f) && At(data, pos, FrameBytes(f)) && next == pos + |FrameBytes(f)| {
      FrameReads(data, pos, f);
    }
    if FrameAt(data, pos) == Ok((f, next)) {
      FrameIsWritten(data, pos);
    }
  }

  lemma FrameReads(data: seq<byte>, pos: nat, f: Frame)
    requires Legal(f) && At(data, pos, FrameBytes(f))
    ensures pos <= |data| && FrameAt(data, pos) == Ok((f, pos + |FrameBytes(f)|))
  {
    hide LengthAt, LengthBytes, HeaderAt;
    AtConcat(data, pos, HeaderBytes(f), f.payload);
    HeaderReads(data, pos, f);
    assert data[pos + |HeaderBytes(f)|..pos + |HeaderBytes(f)| + |f.payload|] == f.payload;
  }

  lemma HeaderReads(data: seq<byte>, pos: nat, f: Frame)
    requires Legal(f) && At(data, pos, HeaderBytes(f))
    ensures pos <= |data| && HeaderAt(data, pos) == Ok((HeaderOf(f), pos + |HeaderBytes(f)|))
  {
    hide LengthAt, LengthBytes;
    var a, b := [(if f.fin then 128 else 0) + f.rsv * 16 + f.opcode], LengthBytes(|f.payload|, f.mask.Some?);
    var c := if f.mask.Some? then f.mask.value else [];
    AtConcat(data, pos, a + b, c);
    AtConcat(data, pos, a, b);
    LengthNotEmpty(|f.payload|, f.mask.Some?);
    LengthReads(data, pos, |f.payload|, f.mask.Some?);
    FirstByte(data, pos, f);
  }

  lemma LengthNotEmpty(length: nat, masked: bool)
    requires length <= MAX_LENGTH
    ensures |LengthBytes(length, masked)| > 0
  {
  }

  lemma FirstByte(data: seq<byte>, pos: nat, f: Frame)
    requires Legal(f) && At(data, pos, [(if f.fin then 128 else 0) + f.rsv * 16 + f.opcode])
    ensures pos < |data|
    ensures (data[pos] >= 128 <==> f.fin) && data[pos] / 16 % 8 == f.rsv && data[pos] % 16 == f.opcode
  {
    assert data[pos] == data[pos..pos + 1][0];
  }

  lemma FrameIsWritten(data: seq<byte>, pos: nat)
    requires pos <= |data| && FrameAt(data, pos).Ok?
    ensures var (f, next) := FrameAt(data, pos).value;
            Legal(f) && At(data, pos, FrameBytes(f)) && next == pos + |FrameBytes(f)|
  {
    hide LengthAt, LengthBytes;
    var (f, next) := FrameAt(data, pos).value;
    LengthIsWritten(data, pos);
    var (length, middle) := LengthAt(data, pos).value;
    var a, b := [(if f.fin then 128 else 0) + f.rsv * 16 + f.opcode], LengthBytes(length, f.mask.Some?);
    var c := if f.mask.Some? then f.mask.value else [];
    assert data[pos..pos + 1] == a;
    AtConcat(data, pos, a, b);
    AtConcat(data, pos, a + b, c);
    AtConcat(data, pos, HeaderBytes(f), f.payload);
  }

  /** What a client that masks a payload sent is what the capture of its frame holds. */
  lemma MaskedFrameShowsPayload(data: seq<byte>, pos: nat, f: Frame, plain: seq<byte>)
    requires Legal(f) && f.mask.Some? && IsMasked(plain, f.mask.value, f.payload) && At(data, pos, FrameBytes(f))
    ensures pos <= |data| && FrameAt(data, pos).Ok?
    ensures var frame := FrameAt(data, pos).value.0;
            Plain(frame.payload, frame.mask) == plain
  {
    hide At, FrameAt, FrameBytes, Unmask;
    FrameReads(data, pos, f);
    MaskedIff(plain, f.mask.value, f.payload);
    UnmaskCancels(plain, f.mask.value);
  }
}

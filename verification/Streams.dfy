/** A byte stream being read, and a destination being written. */
module Streams {
  import opened Wrappers
  import opened Bytes

  /** `bytes` stand at `pos`. */
  predicate At<T(==)>(s: seq<T>, pos: nat, bytes: seq<T>) {
    pos + |bytes| <= |s| && s[pos..pos + |bytes|] == bytes
  }

  lemma AtConcat<T>(s: seq<T>, pos: nat, a: seq<T>, b: seq<T>)
    ensures At(s, pos, a + b) <==> At(s, pos, a) && At(s, pos + |a|, b)
  {
    if At(s, pos, a + b) {
      assert s[pos..pos + |a|] == (a + b)[..|a|];
      assert s[pos + |a|..pos + |a| + |b|] == (a + b)[|a|..];
    }
    if At(s, pos, a) && At(s, pos + |a|, b) {
      assert s[pos..pos + |a| + |b|] == s[pos..pos + |a|] + s[pos + |a|..pos + |a| + |b|];
    }
  }

  lemma SliceOfSlice<T>(s: seq<T>, from: nat, to: nat, a: nat, b: nat)
    requires from <= to <= |s| && a <= b <= to - from
    ensures s[from..to][a..b] == s[from + a..from + b]
  {
    var left, right := s[from..to][a..b], s[from + a..from + b];
    assert forall i :: 0 <= i < |left| ==> left[i] == right[i];
  }

  lemma SlicesJoin<T>(s: seq<T>, from: nat, at: nat, to: nat)
    requires from <= at <= to <= |s|
    ensures s[from..at] + s[at..to] == s[from..to]
  {
  }

  /** What a destination gained is a run of the source from `start`. */
  predicate Forwarded(before: seq<byte>, after: seq<byte>, s: seq<byte>, start: nat) {
    |before| <= |after| && start + (|after| - |before|) <= |s|
    && after == before + s[start..start + (|after| - |before|)]
  }

  class ByteReader {
    const data: seq<byte>
    var pos: nat

    ghost predicate Valid()
      reads this
    {
      pos <= |data|
    }

    constructor (data: seq<byte>)
      ensures this.data == data && pos == 0
    {
      this.data := data;
      pos := 0;
    }

    /** Exactly `length` bytes, or failure. */
    method ReadFull(length: nat) returns (r: Option<seq<byte>>)
      requires Valid()
      modifies this`pos
      ensures Valid()
      ensures |data| - old(pos) >= length ==> pos == old(pos) + length && r == Some(data[old(pos)..pos])
      ensures |data| - old(pos) < length ==> r == None
    {
      if |data| - pos < length {
        pos := |data|;
        return None;
      }
      r := Some(data[pos..pos + length]);
      pos := pos + length;
    }
  }

  class ByteSink {
    var bytes: seq<byte>

    constructor ()
      ensures bytes == []
    {
      bytes := [];
    }

    method Write(data: seq<byte>)
      modifies this
      ensures bytes == old(bytes) + data
    {
      bytes := bytes + data;
    }
  }
}

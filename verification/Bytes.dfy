/** Bytes and fixed-width unsigned integers in both byte orders. */
module Bytes {

  type byte = x: int | 0 <= x < 256

  /** 256 to the power n. */
  function Pow256(n: nat): (p: nat)
    ensures p > 0
  {
    if n == 0 then 1 else 256 * Pow256(n - 1)
  }

  function LittleEndian(data: seq<byte>): (value: nat)
    ensures value < Pow256(|data|)
  {
    if data == [] then 0 else data[0] + 256 * LittleEndian(data[1..])
  }

  /** The `width` low bytes of a value, least significant first. */
  function ToLittleEndian(value: nat, width: nat): (data: seq<byte>)
    ensures |data| == width
  {
    if width == 0 then [] else [value % 256] + ToLittleEndian(value / 256, width - 1)
  }

  function BigEndian(data: seq<byte>): (value: nat)
    ensures value < Pow256(|data|)
  {
    if data == [] then 0 else 256 * BigEndian(data[..|data| - 1]) + data[|data| - 1]
  }

  function ToBigEndian(value: nat, width: nat): (data: seq<byte>)
    ensures |data| == width
  {
    if width == 0 then [] else ToBigEndian(value / 256, width - 1) + [value % 256]
  }

  lemma {:induction false} LittleEndianInverse(value: nat, width: nat)
    requires value < Pow256(width)
    ensures LittleEndian(ToLittleEndian(value, width)) == value
  {
    if width > 0 {
      LittleEndianInverse(value / 256, width - 1);
      assert ToLittleEndian(value, width)[1..] == ToLittleEndian(value / 256, width - 1);
    }
  }

  lemma {:induction false} BigEndianInverse(value: nat, width: nat)
    requires value < Pow256(width)
    ensures BigEndian(ToBigEndian(value, width)) == value
  {
    if width > 0 {
      BigEndianInverse(value / 256, width - 1);
      assert ToBigEndian(value, width)[..width - 1] == ToBigEndian(value / 256, width - 1);
    }
  }

  lemma {:induction false} ToBigEndianInverse(data: seq<byte>)
    ensures ToBigEndian(BigEndian(data), |data|) == data
  {
    if data != [] {
      ToBigEndianInverse(data[..|data| - 1]);
    }
  }

  lemma Widths()
    ensures Pow256(1) == 0x100 && Pow256(2) == 0x1_0000 && Pow256(3) == 0x100_0000
    ensures Pow256(4) == 0x1_0000_0000 && Pow256(8) == 0x1_0000_0000_0000_0000
  {
    assert Pow256(4) == 256 * Pow256(3);
    assert Pow256(8) == 256 * (256 * (256 * (256 * Pow256(4))));
  }

  /** Whether `value & (1 << index)` is not zero. */
  predicate Bit(value: nat, index: nat) {
    if index == 0 then value % 2 == 1 else Bit(value / 2, index - 1)
  }

  function Pow2(n: nat): nat {
    if n == 0 then 1 else 2 * Pow2(n - 1)
  }

  /** Which byte of two is the greater one. */
  lemma ByteOrders(a: byte, b: byte)
    ensures BigEndian([a, b]) == 256 * a + b && ToBigEndian(256 * a + b, 2) == [a, b]
    ensures LittleEndian([a, b]) == a + 256 * b && ToLittleEndian(a + 256 * b, 2) == [a, b]
  {
    assert [a, b][..1] == [a] && [a][..0] == [] && [a, b][1..] == [b] && [b][1..] == [];
    assert BigEndian([a]) == a && LittleEndian([b]) == b;
    assert ToBigEndian(a, 1) == [] + [a] && ToLittleEndian(b, 1) == [b] + [];
    assert (256 * a + b) / 256 == a && (a + 256 * b) / 256 == b;
  }

  lemma BitsOfByte(value: byte, index: nat)
    requires index < 8
    ensures Bit(value, index) <==> value / [1, 2, 4, 8, 16, 32, 64, 128][index] % 2 == 1
  {
    var v1, v2, v3 := value / 2, value / 2 / 2, value / 2 / 2 / 2;
    var v4, v5, v6 := v3 / 2, v3 / 2 / 2, v3 / 2 / 2 / 2;
    assert v2 == value / 4 && v3 == value / 8 && v4 == value / 16 && v5 == value / 32 && v6 == value / 64 && v6 / 2 == value / 128;
    if index == 0 {
    } else if index == 1 {
      assert Bit(value, 1) == Bit(v1, 0);
    } else if index == 2 {
      assert Bit(value, 2) == Bit(v1, 1) == Bit(v2, 0);
    } else if index == 3 {
      assert Bit(value, 3) == Bit(v1, 2) == Bit(v2, 1) == Bit(v3, 0);
    } else {
      assert Bit(value, index) == Bit(v1, index - 1) == Bit(v2, index - 2) == Bit(v3, index - 3) == Bit(v4, index - 4);
      if index > 5 {
        assert Bit(v4, index - 4) == Bit(v5, index - 5) == Bit(v6, index - 6);
      }
    }
  }

  /** How much of a payload is kept. */
  const CAPTURE_LIMIT: nat := 256 * 1024

  function Prefix(data: seq<byte>): seq<byte> {
    if |data| <= CAPTURE_LIMIT then data else data[..CAPTURE_LIMIT]
  }

  /** Keeping what was kept and more is keeping of the whole. */
  lemma PrefixOfPrefix(a: seq<byte>, b: seq<byte>)
    ensures Prefix(Prefix(a) + b) == Prefix(a + b)
  {
    if |a| > CAPTURE_LIMIT {
      assert (a[..CAPTURE_LIMIT] + b)[..CAPTURE_LIMIT] == a[..CAPTURE_LIMIT];
      assert (a + b)[..CAPTURE_LIMIT] == a[..CAPTURE_LIMIT];
    }
  }

  function Min(a: int, b: int): int {
    if a < b then a else b
  }
}

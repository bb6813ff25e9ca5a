/** Conversions between numbers below 256 and bit vectors of eight bits. */
module Octet {

  lemma BitsSurvive(x: bv8)
    ensures (x as nat) as bv8 == x
  {
  }

  /** The number one in four bytes. */
  lemma OneInFour()
    ensures [(1 / 0x100_0000 % 256) as bv8, (1 / 0x1_0000 % 256) as bv8, (1 / 0x100 % 256) as bv8, (1 % 256) as bv8] == [0, 0, 0, 1]
  {
  }

  lemma Successor(x: bv8)
    requires x != 0xff
    ensures (x + 1) as nat == x as nat + 1
  {
  }

  /** Every number below 256 is that of some bits. */
  lemma {:induction false} BitsOf(n: nat) returns (x: bv8)
    requires n < 256
    ensures x as nat == n
  {
    if n == 0 {
      x := 0;
    } else {
      var before := BitsOf(n - 1);
      Successor(before);
      x := before + 1;
    }
  }

  lemma NumberSurvives(n: nat)
    requires n < 256
    ensures (n as bv8) as nat == n
  {
    var x := BitsOf(n);
    BitsSurvive(x);
  }
}

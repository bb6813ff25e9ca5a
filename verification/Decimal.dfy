/** Decimal integers in text: strconv.Itoa on naturals and strconv.Atoi on any text. */
module Decimal {
  import opened Wrappers

  const INT_MAX: int := 0x7fff_ffff_ffff_ffff
  const INT_MIN: int := -0x8000_0000_0000_0000

  predicate IsDigit(c: char) {
    '0' <= c <= '9'
  }

  predicate AllDigits(s: string) {
    forall i :: 0 <= i < |s| ==> IsDigit(s[i])
  }

  function DigitsValue(s: string): nat
    requires AllDigits(s)
  {
    if s == "" then 0
    else DigitsValue(s[..|s| - 1]) * 10 + (s[|s| - 1] as int - '0' as int)
  }

  /** An optional sign, at least one digit, nothing else, and a value that fits a 64-bit integer. */
  function Atoi(s: string): Option<int> {
    var digits := if s != "" && (s[0] == '-' || s[0] == '+') then s[1..] else s;
    if digits == "" || !AllDigits(digits) then None
    else
      var magnitude: int := DigitsValue(digits);
      var value := if s[0] == '-' then -magnitude else magnitude;
      if INT_MIN <= value <= INT_MAX then Some(value) else None
  }

  function Digit(d: nat): char
    requires d < 10
  {
    ('0' as int + d) as char
  }

  function Itoa(n: nat): string {
    if n < 10 then [Digit(n)] else Itoa(n / 10) + [Digit(n % 10)]
  }

  lemma {:induction false} ItoaDigits(n: nat)
    ensures Itoa(n) != "" && AllDigits(Itoa(n))
    ensures DigitsValue(Itoa(n)) == n
  {
    if n < 10 {
      assert Itoa(n)[..0] == "";
    } else {
      ItoaDigits(n / 10);
      assert Itoa(n)[..|Itoa(n)| - 1] == Itoa(n / 10);
    }
  }

  lemma {:induction false} ItoaLength(n: nat)
    ensures |Itoa(n)| <= n / 10 + 1
  {
    if n >= 10 {
      ItoaLength(n / 10);
    }
  }

  lemma AtoiItoa(n: nat)
    requires n <= INT_MAX
    ensures Atoi(Itoa(n)) == Some(n)
  {
    ItoaDigits(n);
    assert IsDigit(Itoa(n)[0]);
  }

  lemma {:induction false} ItoaFront(n: nat)
    ensures |Itoa(n)| > 1 ==> Itoa(n)[0] != '0'
    ensures n > 0 ==> Itoa(n)[0] != '0'
  {
    if n >= 10 {
      ItoaFront(n / 10);
      ItoaDigits(n / 10);
    }
  }

  lemma {:induction false} ItoaOfDigits(text: string)
    requires text != "" && AllDigits(text) && (|text| > 1 ==> text[0] != '0')
    ensures Itoa(DigitsValue(text)) == text
    ensures text[0] != '0' ==> DigitsValue(text) > 0
  {
    var front, last := text[..|text| - 1], text[|text| - 1];
    if front != "" {
      assert AllDigits(front);
      ItoaOfDigits(front);
      assert DigitsValue(text) == DigitsValue(front) * 10 + (last as int - '0' as int);
      assert DigitsValue(text) / 10 == DigitsValue(front);
    } else {
      assert DigitsValue(front) == 0;
    }
  }

  // ----- which texts denote a number -----------------------------------------------------------

  function Zeros(n: nat): string {
    seq(n, _ => '0')
  }

  /** The spellings of a number: leading zeros are allowed, a plus sign if it is not negative, and a minus sign for zero too. */
  ghost predicate Spells(text: string, n: int) {
    exists sign, zeros: nat :: SpelledWith(text, n, sign, zeros)
  }

  predicate SpelledWith(text: string, n: int, sign: string, zeros: nat) {
    && ((n >= 0 && (sign == "" || sign == "+")) || (n <= 0 && sign == "-"))
    && text == sign + Zeros(zeros) + Itoa(if n < 0 then -n else n)
  }

  lemma {:induction false} ZerosInFront(zeros: nat, digits: string)
    requires AllDigits(digits)
    ensures AllDigits(Zeros(zeros) + digits) && DigitsValue(Zeros(zeros) + digits) == DigitsValue(digits)
    decreases |digits|, zeros
  {
    var text := Zeros(zeros) + digits;
    if digits != "" {
      var front := digits[..|digits| - 1];
      ZerosInFront(zeros, front);
      assert text[..|text| - 1] == Zeros(zeros) + front;
    } else if zeros > 0 {
      ZerosInFront(zeros - 1, "");
      assert text[..|text| - 1] == Zeros(zeros - 1) + "";
    }
  }

  /** Digits are zeros and a number without leading ones. */
  lemma {:induction false} StripZeros(digits: string) returns (zeros: nat)
    requires digits != "" && AllDigits(digits)
    ensures digits == Zeros(zeros) + Itoa(DigitsValue(digits))
  {
    if |digits| == 1 || digits[0] != '0' {
      ItoaOfDigits(digits);
      zeros := 0;
      assert Zeros(0) + Itoa(DigitsValue(digits)) == Itoa(DigitsValue(digits));
    } else {
      var rest := digits[1..];
      assert AllDigits(rest);
      var fewer := StripZeros(rest);
      assert digits == Zeros(1) + rest;
      ZerosInFront(1, rest);
      zeros := fewer + 1;
      assert digits == Zeros(zeros) + Itoa(DigitsValue(rest));
    }
  }

  lemma SignInFront(text: string, signed: bool)
    requires text != ""
    ensures text == (if signed then text[..1] else "") + (if signed then text[1..] else text)
    ensures text[0] == '-' ==> text[..1] == "-"
    ensures text[0] == '+' ==> text[..1] == "+"
  {
  }

  lemma AtoiSpelled(text: string, n: int)
    requires Atoi(text) == Some(n)
    ensures Spells(text, n)
  {
    hide Itoa, DigitsValue, Zeros, AllDigits;
    var signed := text[0] == '-' || text[0] == '+';
    var sign, digits := if signed then text[..1] else "", if signed then text[1..] else text;
    var zeros := StripZeros(digits);
    SignInFront(text, signed);
    var magnitude := if n < 0 then -n else n;
    assert sign + (Zeros(zeros) + Itoa(magnitude)) == sign + Zeros(zeros) + Itoa(magnitude);
    assert SpelledWith(text, n, sign, zeros);
  }

  lemma SpelledAtoi(text: string, n: int, sign: string, zeros: nat)
    requires SpelledWith(text, n, sign, zeros)
    ensures Atoi(text) == if INT_MIN <= n <= INT_MAX then Some(n) else None
  {
    hide Itoa, DigitsValue, Zeros;
    var magnitude := if n < 0 then -n else n;
    ItoaDigits(magnitude);
    ZerosInFront(zeros, Itoa(magnitude));
    var digits := Zeros(zeros) + Itoa(magnitude);
    assert sign + Zeros(zeros) + Itoa(magnitude) == sign + digits;
    assert IsDigit(digits[0]);
    if sign == "" {
      assert text == digits;
    } else {
      assert text[0] == sign[0] && text[1..] == digits;
    }
  }

  /** A text is read as a number exactly when it spells it and the number fits 64 bits. */
  lemma AtoiIff(text: string, n: int)
    ensures Atoi(text) == Some(n) <==> Spells(text, n) && -0x8000_0000_0000_0000 <= n <= 0x7fff_ffff_ffff_ffff
  {
    hide Atoi, SpelledWith;
    if Atoi(text) == Some(n) {
      AtoiSpelled(text, n);
      AtoiBounded(text);
    }
    if Spells(text, n) {
      var sign, zeros: nat :| SpelledWith(text, n, sign, zeros);
      SpelledAtoi(text, n, sign, zeros);
    }
  }

  lemma AtoiBounded(text: string)
    ensures Atoi(text).Some? ==> INT_MIN <= Atoi(text).value <= INT_MAX
  {
    hide DigitsValue;
  }
}

/** Numbers as text. */
module Numerals {
  import opened Prelude

  function Digit(d: nat): char
    requires d < 10
  {
    '0' + d as char
  }

  /** The decimal text of a number. */
  function Decimal(n: nat): (text: string)
    ensures text != [] && forall i :: 0 <= i < |text| ==> '0' <= text[i] <= '9'
  {
    if n < 10 then [Digit(n)] else Decimal(n / 10) + [Digit(n % 10)]
  }

  predicate IsDigit(c: char)
  {
    '0' <= c <= '9'
  }

  predicate AllDigits(text: string)
  {
    forall i :: 0 <= i < |text| ==> IsDigit(text[i])
  }

  /** The value of a text of digits. */
  function ValueOf(digits: string): nat
    requires AllDigits(digits)
  {
    if digits == [] then 0
    else
      var n := |digits| - 1;
      ValueOf(digits[..n]) * 10 + (digits[n] as int - '0' as int)
  }

  /** `str::parse` into an unsigned type: digits, an optional plus sign before them, and nothing past its range. */
  function ParseUnsigned(text: string, limit: nat): Option<nat>
  {
    var digits := if text != [] && text[0] == '+' then text[1..] else text;
    if digits == [] || !AllDigits(digits) then None
    else if ValueOf(digits) < limit then Some(ValueOf(digits)) else None
  }

  lemma {:induction false} DecimalValue(n: nat)
    ensures AllDigits(Decimal(n)) && ValueOf(Decimal(n)) == n
  {
    if n >= 10 {
      DecimalValue(n / 10);
      assert Decimal(n)[..|Decimal(n)| - 1] == Decimal(n / 10);
    } else {
      assert ValueOf([]) == 0;
    }
  }

  lemma DecimalParses(n: nat, limit: nat)
    requires n < limit
    ensures ParseUnsigned(Decimal(n), limit) == Some(n)
  {
    DecimalValue(n);
    hide Decimal, ValueOf;
    assert IsDigit(Decimal(n)[0]);
  }

  lemma {:induction false} LeadingZeros(z: nat, digits: string)
    requires AllDigits(digits)
    ensures AllDigits(Repeat(z, '0') + digits) && ValueOf(Repeat(z, '0') + digits) == ValueOf(digits)
  {
    var text := Repeat(z, '0') + digits;
    if digits != [] {
      LeadingZeros(z, digits[..|digits| - 1]);
      assert text[..|text| - 1] == Repeat(z, '0') + digits[..|digits| - 1];
    } else if z > 0 {
      LeadingZeros(z - 1, digits);
      assert text[..z - 1] == Repeat(z - 1, '0') + digits;
    }
  }

  lemma OneMoreDigit(high: nat, low: nat)
    requires low < 10
    ensures Decimal(high * 10 + low) == if high == 0 then [Digit(low)] else Decimal(high) + [Digit(low)]
  {
    assert (high * 10 + low) / 10 == high && (high * 10 + low) % 10 == low;
  }

  lemma ValueStep(digits: string)
    requires digits != [] && AllDigits(digits)
    ensures var n := |digits| - 1;
            var low := digits[n] as int - '0' as int;
            0 <= low < 10 && digits[n] == Digit(low) && ValueOf(digits) == ValueOf(digits[..n]) * 10 + low
  {
    assert IsDigit(digits[|digits| - 1]);
  }

  /** A text of digits is zeros and then its value. */
  lemma {:induction false} DigitsAre(digits: string) returns (z: nat)
    requires digits != [] && AllDigits(digits)
    ensures digits == Repeat(z, '0') + Decimal(ValueOf(digits))
  {
    var n := |digits| - 1;
    var init, high, low := digits[..n], ValueOf(digits[..n]), digits[n] as int - '0' as int;
    assert n == 0 ==> high == 0;
    hide ValueOf, Decimal, IsDigit;
    ValueStep(digits);
    OneMoreDigit(high, low);
    assert digits == init + [Digit(low)];
    if n == 0 {
      z := 0;
      NoZeros([Digit(low)]);
    } else {
      z := DigitsAre(init);
      if high == 0 {
        ZeroText();
        OneMoreZero(z);
        z := z + 1;
      } else {
        Extended(Repeat(z, '0'), Decimal(high), Digit(low));
      }
    }
  }

  lemma NoZeros(text: string)
    ensures [] + text == text == Repeat(0, '0') + text
  {
  }

  lemma OneMoreZero(z: nat)
    ensures Repeat(z, '0') + ['0'] == Repeat(z + 1, '0')
  {
  }

  lemma Extended(before: string, text: string, c: char)
    ensures before + text + [c] == before + (text + [c])
  {
  }

  lemma ZeroText()
    ensures Decimal(0) == ['0']
  {
  }

  /** The text is the number in decimal, with any zeros and perhaps a plus sign before it. */
  ghost predicate Denotes(text: string, n: nat)
  {
    exists z: nat :: text == Repeat(z, '0') + Decimal(n) || text == "+" + (Repeat(z, '0') + Decimal(n))
  }

  /** A text parses as a number below the limit exactly when it denotes that number. */
  lemma ParsesIff(text: string, limit: nat, n: nat)
    ensures ParseUnsigned(text, limit) == Some(n) <==> n < limit && Denotes(text, n)
  {
    hide Decimal, ValueOf;
    var signed := text != [] && text[0] == '+';
    var digits := if signed then text[1..] else text;
    if digits != [] && AllDigits(digits) {
      var z := DigitsAre(digits);
      assert signed ==> text == "+" + digits;
    }
    if Denotes(text, n) {
      var z: nat :| text == Repeat(z, '0') + Decimal(n) || text == "+" + (Repeat(z, '0') + Decimal(n));
      var plain := Repeat(z, '0') + Decimal(n);
      DecimalValue(n);
      LeadingZeros(z, Decimal(n));
      assert IsDigit(plain[0]);
      assert digits == plain;
    }
  }

  lemma OnlyDigits(n: nat, c: char)
    requires !IsDigit(c)
    ensures c !in Decimal(n)
  {
    hide Decimal;
  }
}

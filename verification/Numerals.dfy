/** Decimal and hexadecimal printing of 64-bit integers, and reading them back. */
module Numerals {
  import opened Model
  import opened Builder

  /** The bases the printers use. */
  type Base = b: nat | b == 10 || b == 16 witness 10

  function Digit(d: nat): (c: char)
    requires d < 16
  {
    if d < 10 then '0' + d as char else 'A' + (d - 10) as char
  }

  function DigitValue(c: char): Option<nat> {
    if '0' <= c <= '9' then Some((c - '0') as nat)
    else if 'A' <= c <= 'F' then Some((c - 'A') as nat + 10)
    else None
  }

  lemma DigitRoundTrip(d: nat)
    requires d < 16
    ensures DigitValue(Digit(d)) == Some(d)
  {
  }

  /** `n` with at least `width` digits and otherwise without leading zeros. */
  function Numeral(base: Base, n: nat, width: nat): (text: string)
    ensures |text| >= width
    ensures forall i :: 0 <= i < |text| ==> DigitValue(text[i]).Some?
    decreases n, width
  {
    if n == 0 && width == 0 then ""
    else Numeral(base, n / base, if width > 0 then width - 1 else 0) + [Digit(n % base)]
  }

  function Power(base: nat, n: nat): nat {
    if n == 0 then 1 else base * Power(base, n - 1)
  }

  /** Positional value of a digit string. */
  function NumeralValue(base: Base, text: string): nat
    requires forall i :: 0 <= i < |text| ==> DigitValue(text[i]).Some?
  {
    if text == "" then 0
    else base * NumeralValue(base, text[..|text| - 1]) + DigitValue(text[|text| - 1]).value
  }

  /** Reading back what was printed. */
  lemma {:induction false} NumeralRoundTrip(base: Base, n: nat, width: nat)
    ensures NumeralValue(base, Numeral(base, n, width)) == n
    decreases n, width
  {
    if n == 0 && width == 0 {
    } else {
      var w := if width > 0 then width - 1 else 0;
      var text := Numeral(base, n, width);
      assert text[..|text| - 1] == Numeral(base, n / base, w);
      NumeralRoundTrip(base, n / base, w);
      DigitRoundTrip(n % base);
    }
  }

  /** No shorter numeral would do: one digit less holds only smaller numbers. */
  lemma {:induction false} NumeralLength(base: Base, n: nat, width: nat)
    ensures n < Power(base, |Numeral(base, n, width)|)
    ensures |Numeral(base, n, width)| > width ==> n >= Power(base, |Numeral(base, n, width)| - 1)
    decreases n, width
  {
    if n == 0 && width == 0 {
    } else {
      var w := if width > 0 then width - 1 else 0;
      NumeralLength(base, n / base, w);
      var k := |Numeral(base, n / base, w)|;
      assert |Numeral(base, n, width)| == k + 1;
      if base == 10 {
        assert n < 10 * Power(10, k);
      } else {
        assert n < 16 * Power(16, k);
      }
      if k + 1 > width && k > 0 {
        assert Power(base, k) == base * Power(base, k - 1);
      }
    }
  }

  function UIntText(u: nat): string {
    Numeral(10, u, 1)
  }

  function IntText(i: int): string {
    if i < 0 then "-" + UIntText(-i) else UIntText(i)
  }

  lemma UnsignedIsInt(u: nat)
    ensures IntText(u) == UIntText(u)
  {
  }

  function Reversed(s: string): string {
    if s == "" then "" else [s[|s| - 1]] + Reversed(s[..|s| - 1])
  }

  lemma PowerTen20()
    ensures Power(10, 20) == 100_000_000_000_000_000_000
  {
    assert Power(10, 10) == 10_000_000_000 by {
      assert Power(10, 5) == 100_000;
    }
    assert Power(10, 15) == 1_000_000_000_000_000;
  }

  /** The digit loop: least significant first into a 32-byte buffer, of which at most 20 are used. */
  method CollectDigits(value: UInt64) returns (digits: array<char>, count: nat)
    ensures fresh(digits) && digits.Length == 32 && 0 < count <= 20
    ensures Reversed(digits[..count]) == UIntText(value)
  {
    hide Power, Numeral, Reversed;
    digits := new char[32];
    var rest: nat := value;
    DigitStart(value);
    digits[0] := '0' + (rest % 10) as char;
    rest := rest / 10;
    count := 1;
    assert digits[..1] == [Digit(value % 10)];
    while rest != 0
      invariant 0 < count <= 20 && rest < Power(10, 20 - count)
      invariant UIntText(value) == Numeral(10, rest, 0) + Reversed(digits[..count])
    {
      ghost var done := digits[..count];
      DigitStep(rest, done, count);
      digits[count] := '0' + (rest % 10) as char;
      assert digits[..count + 1] == done + [Digit(rest % 10)];
      rest := rest / 10;
      count := count + 1;
    }
    assert Numeral(10, 0, 0) == "" by {
      NoDigits();
    }
  }

  lemma NoDigits()
    ensures Numeral(10, 0, 0) == ""
  {
  }

  lemma DigitStart(value: UInt64)
    ensures value / 10 < Power(10, 19)
    ensures UIntText(value) == Numeral(10, value / 10, 0) + Reversed([Digit(value % 10)])
  {
    PowerTen20();
  }

  lemma DigitStep(rest: nat, done: string, count: nat)
    requires rest != 0 && 0 < count <= 20 && rest < Power(10, 20 - count)
    ensures count < 20 && rest / 10 < Power(10, 20 - (count + 1))
    ensures Numeral(10, rest, 0) + Reversed(done)
         == Numeral(10, rest / 10, 0) + Reversed(done + [Digit(rest % 10)])
  {
    assert (done + [Digit(rest % 10)])[..|done|] == done;
  }

  method AppendUInt64(b: TextBuilder, value: UInt64)
    requires b.Valid()
    modifies b, b.text
    ensures b.Valid() && (b.text == old(b.text) || fresh(b.text))
    ensures b.Contents() == old(b.Contents()) + UIntText(value)
  {
    hide UIntText, TextBuilder.Valid, TextBuilder.Contents;
    var digits, count := CollectDigits(value);
    ghost var before := b.Contents();
    while count > 0
      invariant 0 <= count <= 20
      invariant b.Valid() && (b.text == old(b.text) || fresh(b.text)) && b.text != digits
      invariant b.Contents() + Reversed(digits[..count]) == before + UIntText(value)
    {
      ghost var now := b.Contents();
      assert digits[..count][..count - 1] == digits[..count - 1];
      assert now + ([digits[count - 1]] + Reversed(digits[..count - 1])) == (now + [digits[count - 1]]) + Reversed(digits[..count - 1]);
      count := count - 1;
      b.AppendChar(digits[count]);
    }
  }

  /** The magnitude of a negative number is computed without leaving the 64-bit ranges. */
  method AppendInt64(b: TextBuilder, value: Int64)
    requires b.Valid()
    modifies b, b.text
    ensures b.Valid() && (b.text == old(b.text) || fresh(b.text))
    ensures b.Contents() == old(b.Contents()) + IntText(value)
  {
    hide UIntText, TextBuilder.Valid, TextBuilder.Contents;
    var magnitude: UInt64;
    if value < 0 {
      b.Append("-");
      var complement: Int64 := -(value + 1);
      magnitude := complement + 1;
    } else {
      magnitude := value;
    }
    AppendUInt64(b, magnitude);
  }

  /** At least eight digits when the width is forced. */
  function HexText(u: nat, forceWidth: bool): string {
    "0x" + Numeral(16, u, if forceWidth then 8 else 1)
  }

  method AppendHexUInt64(b: TextBuilder, value: UInt64, forceWidth: bool)
    requires b.Valid()
    modifies b, b.text
    ensures b.Valid() && (b.text == old(b.text) || fresh(b.text))
    ensures b.Contents() == old(b.Contents()) + HexText(value, forceWidth)
  {
    hide Numeral, ShiftRight, HexWidth, TextBuilder.Valid, TextBuilder.Contents;
    b.Append("0x");
    var started := false;
    var nibbles := 16;
    ghost var before := b.Contents();
    HexStart(value);
    while nibbles > 0
      invariant 0 <= nibbles <= 16
      invariant b.Valid() && (b.text == old(b.text) || fresh(b.text))
      invariant b.Contents() == before + Numeral(16, ShiftRight(value, nibbles), HexWidth(nibbles, forceWidth))
      invariant started <==> ShiftRight(value, nibbles) != 0 || HexWidth(nibbles, forceWidth) > 0
    {
      nibbles := nibbles - 1;
      var shift := 4 * nibbles;
      HexStep(value, nibbles, forceWidth);
      var digit := ShiftRight(value, nibbles) % 16;
      if digit != 0 || started || shift == 0 || (forceWidth && shift < 32) {
        b.AppendChar(Digit(digit));
        started := true;
      }
    }
    assert ShiftRight(value, 0) == value by {
      ShiftNone(value);
    }
  }

  lemma ShiftNone(value: nat)
    ensures ShiftRight(value, 0) == value
  {
  }

  lemma HexStart(value: UInt64)
    ensures ShiftRight(value, 16) == 0
    ensures Numeral(16, 0, 0) == ""
    ensures forall forceWidth :: HexWidth(16, forceWidth) == 0 && HexWidth(0, forceWidth) == if forceWidth then 8 else 1
  {
    ShiftedOut(value, 16);
  }

  /** One more nibble is printed unless it is a leading zero that is not forced. */
  lemma HexStep(value: nat, k: nat, forceWidth: bool)
    ensures var high, low := ShiftRight(value, k + 1), ShiftRight(value, k);
            var v, w := HexWidth(k + 1, forceWidth), HexWidth(k, forceWidth);
            Numeral(16, low, w) == if low % 16 != 0 || high != 0 || v > 0 || k == 0 || (forceWidth && 4 * k < 32)
                                   then Numeral(16, high, v) + [Digit(low % 16)] else Numeral(16, high, v)
    ensures ShiftRight(value, k) != 0 <==> ShiftRight(value, k) % 16 != 0 || ShiftRight(value, k + 1) != 0
    ensures HexWidth(k + 1, forceWidth) > 0 ==> HexWidth(k, forceWidth) > 0
    ensures HexWidth(k, forceWidth) > 0 <==> k == 0 || (forceWidth && 4 * k < 32)
  {
    ShiftOnce(value, k);
  }

  /** The digits that have to be printed once all but `nibbles` nibbles are done. */
  function HexWidth(nibbles: nat, forceWidth: bool): nat {
    if forceWidth && nibbles < 8 then 8 - nibbles else if nibbles == 0 then 1 else 0
  }

  /** value >> 4 * k */
  function ShiftRight(value: nat, k: nat): nat {
    if k == 0 then value else ShiftRight(value / 16, k - 1)
  }

  lemma {:induction false} ShiftOnce(value: nat, k: nat)
    ensures ShiftRight(value, k + 1) == ShiftRight(value, k) / 16
  {
    if k > 0 {
      ShiftOnce(value / 16, k - 1);
    }
  }

  lemma {:induction false} ShiftIsZero(value: nat, k: nat)
    requires value < Power(16, k)
    ensures ShiftRight(value, k) == 0
  {
    if k > 0 {
      ShiftIsZero(value / 16, k - 1);
    }
  }

  lemma ShiftedOut(value: UInt64, k: nat)
    requires k == 16
    ensures ShiftRight(value, k) == 0
  {
    assert Power(16, 16) == 0x1_0000_0000_0000_0000 by {
      assert Power(16, 4) == 0x1_0000;
      assert Power(16, 8) == 0x1_0000_0000;
      assert Power(16, 12) == 0x1_0000_0000_0000;
    }
    ShiftIsZero(value, 16);
  }
}

/** Numbers as digits, as Number.prototype.toString, String, Number and parseInt convert them. */
module Numerals {

  const DIGITS := "0123456789abcdef"

  datatype Base = Decimal | Hex {
    function Radix(): (r: nat)
    {
      match this case Decimal => 10 case Hex => 16
    }

    function Div(n: nat): nat {
      match this case Decimal => n / 10 case Hex => n / 16
    }

    function Mod(n: nat): (r: nat)
      ensures r < Radix()
    {
      match this case Decimal => n % 10 case Hex => n % 16
    }
  }

  /** The value of a digit, or the radix if the character is none. */
  function DigitValue(c: char, base: Base): (v: nat)
    ensures v <= base.Radix()
  {
    if '0' <= c <= '9' then c as nat - '0' as nat
    else if base.Decimal? then 10
    else if 'a' <= c <= 'f' then 10 + (c as nat - 'a' as nat)
    else if 'A' <= c <= 'F' then 10 + (c as nat - 'A' as nat)
    else 16
  }

  predicate IsNumeral(s: string, base: Base) {
    s != "" && forall c :: c in s ==> DigitValue(c, base) < base.Radix()
  }

  function Print(n: nat, base: Base): (s: string)
    ensures s != ""
    decreases n
  {
    if n < base.Radix() then [DIGITS[n]] else Print(base.Div(n), base) + [DIGITS[base.Mod(n)]]
  }

  function Parse(s: string, base: Base): nat {
    if s == "" then 0 else Parse(s[..|s| - 1], base) * base.Radix() + DigitValue(s[|s| - 1], base)
  }

  lemma DigitsHaveTheirValue(d: nat, base: Base)
    requires d < base.Radix()
    ensures DigitValue(DIGITS[d], base) == d
    ensures '0' <= DIGITS[d] <= '9' || 'a' <= DIGITS[d] <= 'f'
    ensures DIGITS[d] == '0' ==> d == 0
  {}

  /** Reading a printed number gives it back, and its text holds only lower-case digits. */
  lemma {:induction false} ParsePrint(n: nat, base: Base)
    ensures Parse(Print(n, base), base) == n
    ensures IsNumeral(Print(n, base), base)
    ensures forall c :: c in Print(n, base) ==> '0' <= c <= '9' || 'a' <= c <= 'f'
    decreases n
  {
    DigitsHaveTheirValue(base.Mod(n), base);
    if n < base.Radix() {
      assert Print(n, base)[..0] == "";
    } else {
      ParsePrint(base.Div(n), base);
      assert Print(n, base)[..|Print(n, base)| - 1] == Print(base.Div(n), base);
    }
  }

  /** The number of values of `width` digits. */
  function Values(base: Base, width: nat): (r: nat)
    ensures r > 0
  {
    if width == 0 then 1 else base.Radix() * Values(base, width - 1)
  }

  /** A number of at most `width` digits prints in that many, without a leading zero. */
  lemma {:induction false} PrintWidth(n: nat, base: Base, width: nat)
    requires width > 0 && n < Values(base, width)
    ensures |Print(n, base)| <= width
    ensures n > 0 ==> Print(n, base)[0] != '0'
  {
    DigitsHaveTheirValue(base.Mod(n), base);
    if n >= base.Radix() {
      PrintWidth(base.Div(n), base, width - 1);
    }
  }
}

/**
 * Java's `int` and the part of `java.lang.Integer` the app relies on:
 * `Integer.parseInt` turns the API's `idMeal` text into a recipe id.
 */
module JavaInteger {
  import opened Wrappers

  /** Java's 32-bit `int`. */
  newtype Int32 = x: int | -0x8000_0000 <= x < 0x8000_0000

  predicate IsDigit(c: char) {
    '0' <= c <= '9'
  }

  predicate AllDigits(s: string) {
    forall i :: 0 <= i < |s| ==> IsDigit(s[i])
  }

  /** The value of a string of decimal digits, most significant first. */
  function DecimalValue(ds: string): nat
    requires AllDigits(ds)
  {
    if ds == [] then 0
    else 10 * DecimalValue(ds[..|ds| - 1]) + (ds[|ds| - 1] as int - '0' as int)
  }

  /**
   * `Integer.parseInt(s)` (radix 10): an optional leading '-' or '+', then at
   * least one digit, and a value that fits in an `int`. `None` stands for the
   * NumberFormatException Java throws otherwise.
   */
  function ParseInt(s: string): (r: Option<Int32>)
    ensures r.Some? ==> |s| > 0 && (IsDigit(s[0]) || s[0] == '-' || s[0] == '+')
    ensures r.Some? ==> (s[0] == '-' || s[0] == '+' ==> |s| > 1) && forall i :: 0 < i < |s| ==> IsDigit(s[i])
    ensures r.Some? && AllDigits(s) ==> r.value as int == DecimalValue(s)
    ensures r.Some? && s[0] == '-' ==> r.value as int + DecimalValue(s[1..]) == 0
    ensures r.Some? && s[0] == '+' ==> r.value as int == DecimalValue(s[1..])
    ensures |s| > 1 && (s[0] == '-' || s[0] == '+') && AllDigits(s[1..])
            && (if s[0] == '-' then DecimalValue(s[1..]) <= 0x8000_0000 else DecimalValue(s[1..]) < 0x8000_0000)
            ==> r.Some?
    ensures |s| > 0 && AllDigits(s) && DecimalValue(s) < 0x8000_0000 ==> r.Some?
  {
    if |s| == 0 then None
    else
      var negative := s[0] == '-';
      var digits := if s[0] == '-' || s[0] == '+' then s[1..] else s;
      if |digits| == 0 || !AllDigits(digits) then None
      else
        var v := if negative then -(DecimalValue(digits) as int) else DecimalValue(digits) as int;
        if -0x8000_0000 <= v < 0x8000_0000 then Some(v as Int32) else None
  }

  function DigitChar(d: nat): (c: char)
    requires d < 10
    ensures IsDigit(c) && c as int - '0' as int == d
  {
    ('0' as int + d) as char
  }

  /** The shortest decimal spelling of `n`, as `Integer.toString` writes it. */
  function Decimal(n: nat): (s: string)
    ensures |s| > 0 && AllDigits(s)
  {
    if n < 10 then [DigitChar(n)] else Decimal(n / 10) + [DigitChar(n % 10)]
  }

  /** `Integer.toString(v)`: how the upstream API spells an id. */
  function ToString(v: Int32): string
  {
    if v < 0 then "-" + Decimal(-(v as int)) else Decimal(v as int)
  }

  lemma {:induction false} DecimalValueOfDecimal(n: nat)
    ensures DecimalValue(Decimal(n)) == n
  {
    if n >= 10 {
      var s := Decimal(n);
      assert s[..|s| - 1] == Decimal(n / 10);
      DecimalValueOfDecimal(n / 10);
    }
  }

  /** `Integer.parseInt` reads back every `int` that `Integer.toString` writes. */
  lemma ParseIntToString(v: Int32)
    ensures ParseInt(ToString(v)) == Some(v)
  {
    var s := ToString(v);
    if v < 0 {
      var d := Decimal(-(v as int));
      assert s[1..] == d;
      DecimalValueOfDecimal(-(v as int));
    } else {
      var d := Decimal(v as int);
      assert IsDigit(d[0]);
      DecimalValueOfDecimal(v as int);
    }
  }

  /** A text with anything but digits after the optional sign never parses. */
  lemma ParseIntRejectsNonDigit(s: string, k: nat)
    requires 0 <= k < |s| && !IsDigit(s[k])
    requires k == 0 ==> s[0] != '-' && s[0] != '+'
    ensures ParseInt(s).None?
  {
  }
}

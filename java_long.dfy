/** The two conversions between concept ids and their text that the engine relies on:
    `new Long(String)` (that is, `Long.parseLong(s, 10)`) and the decimal text a stored
    long field is read back as. */
module JavaLong {
  import opened Results

  const MinLong: int := -0x8000_0000_0000_0000
  const MaxLong: int := 0x7FFF_FFFF_FFFF_FFFF

  /** A Java `long`. */
  type Long = x: int | MinLong <= x <= MaxLong

  predicate IsDigit(c: char) {
    '0' <= c <= '9'
  }

  predicate AllDigits(s: string) {
    forall i :: 0 <= i < |s| ==> IsDigit(s[i])
  }

  function DigitValue(c: char): nat
    requires IsDigit(c)
  {
    c as int - '0' as int
  }

  function DigitChar(d: nat): char
    requires d < 10
  {
    ('0' as int + d) as char
  }

  /** The value of a string of decimal digits, most significant digit first. */
  function DigitsValue(s: string): nat
    requires AllDigits(s)
  {
    if s == [] then 0 else DigitsValue(s[..|s| - 1]) * 10 + DigitValue(s[|s| - 1])
  }

  /** The decimal text of a natural number: digits only, never empty, no leading zero. */
  function Decimal(n: nat): (s: string)
    ensures |s| > 0 && AllDigits(s)
    ensures s[0] == '0' <==> n == 0
  {
    if n < 10 then [DigitChar(n)] else Decimal(n / 10) + [DigitChar(n % 10)]
  }

  /** `Long.parseLong(s, 10)`: an optional '-' or '+', then at least one decimal digit,
      and the value must fit in a long; a null or any other text is a NumberFormatException
      (here `None`). */
  function ParseLong(s: Option<string>): (r: Option<Long>)
    ensures s.None? ==> r.None?
  {
    match s
    case None => None
    case Some(text) => ParseLongText(text)
  }

  /** `Long.parseLong` on non-null text: the empty text is refused, a result is read from
      an optional sign followed by digits only, and only a '-' gives a negative value. */
  function ParseLongText(text: string): (r: Option<Long>)
    ensures text == [] ==> r.None?
    ensures r.Some? ==> IsDigit(text[0]) || (|text| > 1 && (text[0] == '-' || text[0] == '+'))
    ensures r.Some? ==> forall i :: 0 < i < |text| ==> IsDigit(text[i])
    ensures r.Some? && r.value < 0 ==> text[0] == '-'
  {
    if |text| == 0 then None
    else
      var digits := if text[0] == '-' || text[0] == '+' then text[1..] else text;
      if |digits| == 0 || !AllDigits(digits) then None
      else
        var v: int := if text[0] == '-' then -(DigitsValue(digits) as int) else DigitsValue(digits);
        if MinLong <= v <= MaxLong then Some(v) else None
  }

  /** The text a stored long reads back as (`Long.toString`). */
  function LongToString(n: Long): string {
    if n < 0 then "-" + Decimal(-(n as int)) else Decimal(n)
  }

  lemma {:induction false} DigitsValueOfDecimal(n: nat)
    ensures DigitsValue(Decimal(n)) == n
  {
    if n >= 10 {
      DigitsValueOfDecimal(n / 10);
      var s := Decimal(n);
      assert s[..|s| - 1] == Decimal(n / 10);
    }
  }

  /** Reading back the text of any long gives the long again. */
  lemma ParseLongToString(n: Long)
    ensures ParseLong(Some(LongToString(n))) == Some(n)
  {
    var s := LongToString(n);
    if n < 0 {
      var m := -(n as int);
      DigitsValueOfDecimal(m);
      assert s[1..] == Decimal(m);
      assert ParseLongText(s) == Some(-m);
    } else {
      DigitsValueOfDecimal(n);
      assert IsDigit(s[0]);
      assert ParseLongText(s) == Some(n);
    }
  }

  /** Distinct longs have distinct texts. */
  lemma LongToStringInjective(m: Long, n: Long)
    ensures LongToString(m) == LongToString(n) ==> m == n
  {
    ParseLongToString(m);
    ParseLongToString(n);
  }

  /** Text with a character that is neither a sign in front nor a digit is rejected. */
  lemma ParseLongRejectsNonDigit(text: string, i: nat)
    requires i < |text| && !IsDigit(text[i])
    requires i > 0 || (text[0] != '-' && text[0] != '+')
    ensures ParseLong(Some(text)).None?
  {
    assert ParseLong(Some(text)) == ParseLongText(text);
    var digits := if text[0] == '-' || text[0] == '+' then text[1..] else text;
    if text[0] == '-' || text[0] == '+' {
      assert digits[i - 1] == text[i];
    } else {
      assert digits[i] == text[i];
    }
  }
}

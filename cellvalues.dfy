/** getCellValueAsString: the canonical text of one data cell. */
module CellValues {
  import opened Wrappers
  import opened Sheets

  /**
   * The renderings the normalizer borrows from the Java library, left uninterpreted:
   * `dateTime` is getLocalDateTimeCellValue().toString() of a date-formatted number,
   * `decimal` is String.valueOf(double).
   */
  datatype Formats = Formats(dateTime: real -> string, decimal: real -> string)

  /** `value == Math.floor(value)`. */
  predicate IsIntegral(v: real)
  {
    v == v.Floor as real
  }

  predicate IsDigit(c: char)
  {
    '0' <= c <= '9'
  }

  function DigitChar(d: nat): (c: char)
    requires d < 10
    ensures IsDigit(c) && c as int - '0' as int == d
  {
    ('0' as int + d) as char
  }

  /** The decimal digits of `n`, most significant first, with no leading zero. */
  function Digits(n: nat): (s: string)
    ensures |s| > 0 && forall i :: 0 <= i < |s| ==> IsDigit(s[i])
    ensures s[0] == '0' ==> n == 0
    decreases n
  {
    if n < 10 then [DigitChar(n)] else Digits(n / 10) + [DigitChar(n % 10)]
  }

  /**
   * String.format("%.0f", v) for an integral `v`: the numeral of the integer, with no
   * decimal point and no exponent.
   */
  function Numeral(n: int): string
  {
    if n < 0 then "-" + Digits(-n) else Digits(n)
  }

  /** A base-ten integer numeral: an optional minus sign followed by one or more digits. */
  predicate IsNumeral(s: string)
  {
    && |s| > 0
    && (s[0] == '-' ==> |s| > 1)
    && forall i :: 0 <= i < |s| ==> IsDigit(s[i]) || (i == 0 && s[i] == '-')
  }

  /** A numeral as %.0f writes it: no leading zero, and no minus sign before a zero. */
  predicate IsCanonicalNumeral(s: string)
  {
    && IsNumeral(s)
    && (s[0] == '0' ==> s == "0")
    && (s[0] == '-' ==> s[1] != '0')
  }

  /** The value of a string of digits. */
  function DigitsValue(s: string): nat
    decreases |s|
  {
    if s == [] then 0
    else DigitsValue(s[..|s| - 1]) * 10 + (if IsDigit(s[|s| - 1]) then s[|s| - 1] as int - '0' as int else 0)
  }

  /** The value of a numeral, the inverse of Numeral. */
  function NumeralValue(s: string): int
  {
    if |s| > 0 && s[0] == '-' then 0 - DigitsValue(s[1..]) else DigitsValue(s)
  }

  lemma {:induction false} DigitsRoundTrip(n: nat)
    ensures DigitsValue(Digits(n)) == n
    decreases n
  {
    if n >= 10 {
      var s := Digits(n);
      assert s[..|s| - 1] == Digits(n / 10);
      DigitsRoundTrip(n / 10);
    }
  }

  /**
   * The rendering of an integer is a canonical numeral that reads back as that integer; a
   * canonical numeral is fixed by its value, so this determines the string.
   */
  lemma NumeralRoundTrip(n: int)
    ensures IsCanonicalNumeral(Numeral(n)) && '.' !in Numeral(n)
    ensures NumeralValue(Numeral(n)) == n
  {
    if n < 0 {
      DigitsRoundTrip(-n);
      assert Numeral(n)[1..] == Digits(-n);
    } else {
      DigitsRoundTrip(n);
    }
  }

  /** A digit string without a leading zero is the rendering of its own value. */
  lemma {:induction false} DigitsOfValue(d: string)
    requires |d| > 0 && forall i :: 0 <= i < |d| ==> IsDigit(d[i])
    requires d[0] == '0' ==> |d| == 1
    ensures Digits(DigitsValue(d)) == d
    decreases |d|
  {
    var p := d[..|d| - 1];
    var last := d[|d| - 1] as int - '0' as int;
    assert DigitsValue(d) == DigitsValue(p) * 10 + last;
    if |d| == 1 {
      assert DigitsValue(p) == 0;
      assert [DigitChar(last)] == d;
    } else {
      assert p[0] == d[0];
      DigitsOfValue(p);
      assert DigitsValue(p) != 0 by {
        assert Digits(0) == "0";
      }
      var v := DigitsValue(d);
      assert v / 10 == DigitsValue(p) && v % 10 == last;
      assert Digits(v) == Digits(v / 10) + [DigitChar(v % 10)];
      assert d == p + [d[|d| - 1]];
    }
  }

  /** A canonical numeral is the rendering of its own value. */
  lemma NumeralOfValue(s: string)
    requires IsCanonicalNumeral(s)
    ensures Numeral(NumeralValue(s)) == s
  {
    if s[0] == '-' {
      var d := s[1..];
      assert d[0] == s[1];
      DigitsOfValue(d);
      assert DigitsValue(d) != 0 by {
        assert Digits(0) == "0";
      }
      assert s == "-" + d;
    } else {
      DigitsOfValue(s);
    }
  }

  /** Two canonical numerals with the same value are the same string. */
  lemma CanonicalNumeralUnique(s: string, t: string)
    requires IsCanonicalNumeral(s) && IsCanonicalNumeral(t)
    requires NumeralValue(s) == NumeralValue(t)
    ensures s == t
  {
    NumeralOfValue(s);
    NumeralOfValue(t);
  }

  /** getCellValueAsString over every kind of cell. */
  function Normalize(cell: Option<Cell>, fmt: Formats): string
  {
    match cell
    case None => ""
    case Some(TextCell(text)) => text
    case Some(NumericCell(v, dateFormatted)) =>
      if dateFormatted then fmt.dateTime(v)
      else if IsIntegral(v) then Numeral(v.Floor)
      else fmt.decimal(v)
    case Some(BooleanCell(flag)) => if flag then "true" else "false"
    case Some(FormulaCell(CachedNumber(v))) => fmt.decimal(v)
    case Some(FormulaCell(CachedText(text))) => text
    case Some(BlankCell) => ""
    case Some(ErrorCell) => ""
  }

  /** An absent cell and the kinds the switch does not name read as the empty string. */
  lemma NormalizeEmptyKinds(cell: Option<Cell>, fmt: Formats)
    requires cell == None || cell == Some(BlankCell) || cell == Some(ErrorCell)
    ensures Normalize(cell, fmt) == ""
  {
  }

  /** A text cell is copied exactly, surrounding whitespace included. */
  lemma NormalizeTextVerbatim(text: string, fmt: Formats)
    ensures Normalize(Some(TextCell(text)), fmt) == text
  {
  }

  /** Boolean.parseBoolean: true exactly for "true", ignoring case. */
  predicate ParseBoolean(s: string)
  {
    |s| == 4 && s[0] in "tT" && s[1] in "rR" && s[2] in "uU" && s[3] in "eE"
  }

  /** A boolean cell reads as "true" or "false", and that text reads back as its value. */
  lemma NormalizeBooleanRoundTrip(flag: bool, fmt: Formats)
    ensures Normalize(Some(BooleanCell(flag)), fmt) in {"true", "false"}
    ensures ParseBoolean(Normalize(Some(BooleanCell(flag)), fmt)) == flag
  {
  }

  /**
   * An integral number that is not date-formatted renders as a canonical integer numeral: no
   * decimal point, no exponent, no leading zero, no "-0", and it reads back as the cell's value.
   */
  lemma NormalizeIntegral(v: real, fmt: Formats)
    requires IsIntegral(v)
    ensures IsCanonicalNumeral(Normalize(Some(NumericCell(v, false)), fmt))
    ensures '.' !in Normalize(Some(NumericCell(v, false)), fmt)
    ensures NumeralValue(Normalize(Some(NumericCell(v, false)), fmt)) as real == v
  {
    NumeralRoundTrip(v.Floor);
  }

  /** A number with a fractional part goes to String.valueOf; a date-formatted one to the date renderer. */
  lemma NormalizeOtherNumbers(v: real, dateFormatted: bool, fmt: Formats)
    requires dateFormatted || !IsIntegral(v)
    ensures Normalize(Some(NumericCell(v, dateFormatted)), fmt)
            == if dateFormatted then fmt.dateTime(v) else fmt.decimal(v)
  {
  }

  /**
   * A formula reads as String.valueOf of its cached number, integral or not; its cached text is
   * used only when the cached value is not a number.
   */
  lemma NormalizeFormula(cached: Cached, fmt: Formats)
    ensures Normalize(Some(FormulaCell(cached)), fmt)
            == match cached
               case CachedNumber(v) => fmt.decimal(v)
               case CachedText(text) => text
  {
  }

  /** A cell holding 42.0 reads as "42". */
  lemma NormalizeFortyTwo(fmt: Formats)
    ensures Normalize(Some(NumericCell(42.0, false)), fmt) == "42"
  {
    assert (42.0).Floor == 42;
    assert Digits(42) == Digits(4) + [DigitChar(2)];
  }
}

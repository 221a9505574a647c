/**
 * Dates written as `YYYY-MM-DD`, the form `strptime(s, '%Y-%m-%d')` reads
 * (taken strictly: four-digit year, two-digit month and day), close to the
 * `full-date` production of section 5.6 of RFC 3339.
 */
module DateText {
  import opened Wrappers
  import opened Dates
  import opened Text

  predicate IsDigit(c: char) {
    '0' <= c <= '9'
  }

  predicate AllDigits(s: string) {
    forall k :: 0 <= k < |s| ==> IsDigit(s[k])
  }

  function DigitChar(n: int): (c: char)
    requires 0 <= n <= 9
    ensures IsDigit(c)
  {
    (n + '0' as int) as char
  }

  function DigitValue(c: char): int
    requires IsDigit(c)
  {
    c as int - '0' as int
  }

  /** The value of a string of decimal digits. */
  function Value(s: string): nat
    requires AllDigits(s)
  {
    if s == [] then 0 else Value(s[..|s| - 1]) * 10 + DigitValue(s[|s| - 1])
  }

  /** `n` written with two digits, zero padded (`%02d`). */
  function Pad2(n: int): (s: string)
    requires 0 <= n <= 99
    ensures |s| == 2 && AllDigits(s)
  {
    [DigitChar(n / 10), DigitChar(n % 10)]
  }

  /** `n` written with four digits, zero padded (`%04d`). */
  function Pad4(n: int): (s: string)
    requires 0 <= n <= 9999
    ensures |s| == 4 && AllDigits(s)
  {
    [DigitChar(n / 1000), DigitChar(n / 100 % 10), DigitChar(n / 10 % 10), DigitChar(n % 10)]
  }

  /** `d.strftime('%Y-%m-%d')`. */
  function FormatDate(d: Date): (s: string)
    requires Representable(d)
    ensures |s| == 10
  {
    Pad4(d.year) + "-" + Pad2(d.month) + "-" + Pad2(d.day)
  }

  /**
   * `strptime(s, '%Y-%m-%d')` taken strictly: `None` where the script raises
   * ValueError. A result, when there is one, is a date a `datetime` can hold,
   * and it is written exactly as `s` is.
   */
  function ParseDate(s: string): (r: Option<Date>)
    ensures r.Some? ==> Representable(r.value)
  {
    if |s| == 10 && s[4] == '-' && s[7] == '-'
       && AllDigits(s[..4]) && AllDigits(s[5..7]) && AllDigits(s[8..])
    then
      var d := Date(Value(s[..4]), Value(s[5..7]), Value(s[8..]));
      if Representable(d) then Some(d) else None
    else None
  }

  /** What the parser accepts is written exactly as the date it yields. */
  lemma ParseSound(s: string)
    requires ParseDate(s).Some?
    ensures FormatDate(ParseDate(s).value) == s
  {
    PadValue4(s[..4]);
    PadValue2(s[5..7]);
    PadValue2(s[8..]);
    assert s == s[..4] + "-" + s[5..7] + "-" + s[8..];
  }

  lemma PadValue2(s: string)
    requires |s| == 2 && AllDigits(s)
    ensures Value(s) <= 99 && Pad2(Value(s)) == s
  {
    ValueOfTwo(s);
  }

  lemma ValueOfTwo(s: string)
    requires |s| == 2 && AllDigits(s)
    ensures Value(s) == DigitValue(s[0]) * 10 + DigitValue(s[1])
  {
    var p := s[..1];
    assert p[..0] == [] && p[0] == s[0];
    assert Value(p) == DigitValue(s[0]);
  }

  lemma ValueOfFour(s: string)
    requires |s| == 4 && AllDigits(s)
    ensures Value(s) == ((DigitValue(s[0]) * 10 + DigitValue(s[1])) * 10 + DigitValue(s[2])) * 10 + DigitValue(s[3])
  {
    var p := s[..3];
    ValueOfTwo(p[..2]);
    assert p[..2][0] == s[0] && p[..2][1] == s[1] && p[2] == s[2];
    assert Value(p) == Value(p[..2]) * 10 + DigitValue(s[2]);
  }

  lemma PadValue4(s: string)
    requires |s| == 4 && AllDigits(s)
    ensures Value(s) <= 9999 && Pad4(Value(s)) == s
  {
    ValueOfFour(s);
    var a, b, c, d := DigitValue(s[0]), DigitValue(s[1]), DigitValue(s[2]), DigitValue(s[3]);
    var n := Value(s);
    DivModUnique(n, 1000, a, 100 * b + 10 * c + d);
    DivModUnique(n, 100, 10 * a + b, 10 * c + d);
    DivModUnique(10 * a + b, 10, a, b);
    DivModUnique(n, 10, 100 * a + 10 * b + c, d);
    DivModUnique(100 * a + 10 * b + c, 10, 10 * a + b, c);
  }

  lemma DivModUnique(n: int, k: int, q: int, r: int)
    requires k == 10 || k == 100 || k == 1000
    requires n == k * q + r && 0 <= r < k
    ensures n / k == q && n % k == r
  {
    if k == 10 {
      assert n == 10 * q + r;
    } else if k == 100 {
      assert n == 100 * q + r;
    } else {
      assert n == 1000 * q + r;
    }
  }

  lemma ValuePad2(n: int)
    requires 0 <= n <= 99
    ensures Value(Pad2(n)) == n
  {
    ValueOfTwo(Pad2(n));
  }

  lemma ValuePad4(n: int)
    requires 0 <= n <= 9999
    ensures Value(Pad4(n)) == n
  {
    ValueOfFour(Pad4(n));
    var q1 := n / 10;
    var q2 := q1 / 10;
    DivModUnique(n, 100, q2, (q1 % 10) * 10 + n % 10);
    DivModUnique(n, 1000, q2 / 10, (q2 % 10) * 100 + (q1 % 10) * 10 + n % 10);
  }

  /** Every date a `datetime` can hold reads back from its written form. */
  lemma ParseFormat(d: Date)
    requires Representable(d)
    ensures ParseDate(FormatDate(d)) == Some(d)
  {
    var s := FormatDate(d);
    assert s[..4] == Pad4(d.year);
    assert s[5..7] == Pad2(d.month);
    assert s[8..] == Pad2(d.day);
    ValuePad4(d.year);
    ValuePad2(d.month);
    ValuePad2(d.day);
  }

  /** The parser accepts exactly the written forms of the dates a `datetime` can hold. */
  lemma ParseDateIff(s: string, d: Date)
    ensures ParseDate(s) == Some(d) <==> Representable(d) && s == FormatDate(d)
  {
    if Representable(d) && s == FormatDate(d) {
      ParseFormat(d);
    }
    if ParseDate(s) == Some(d) {
      ParseSound(s);
    }
  }

  /** A written date holds no whitespace and no comma, and starts and ends with a digit. */
  lemma FormatChars(d: Date)
    requires Representable(d)
    ensures Avoids(FormatDate(d), ' ') && Avoids(FormatDate(d), ',') && NoSpaces(FormatDate(d))
    ensures IsDigit(FormatDate(d)[0]) && IsDigit(FormatDate(d)[9])
  {
    var s := FormatDate(d);
    forall k | 0 <= k < 10
      ensures s[k] != ' ' && s[k] != ',' && !IsSpace(s[k])
    {
      if k < 4 {
        assert s[k] == Pad4(d.year)[k];
      } else if 4 < k < 7 {
        assert s[k] == Pad2(d.month)[k - 5];
      } else if 7 < k {
        assert s[k] == Pad2(d.day)[k - 8];
      }
    }
  }

  /** The dashes of a written date separate its three fields. */
  lemma FormatFields(d: Date)
    requires Representable(d)
    ensures FormatDate(d) == Join("-", [Pad4(d.year), Pad2(d.month), Pad2(d.day)])
  {
    var y, m, dd := Pad4(d.year), Pad2(d.month), Pad2(d.day);
    assert [y, m, dd][1..] == [m, dd] && [m, dd][1..] == [dd];
    assert Join("-", [m, dd]) == m + "-" + dd;
  }

  /** Digits hold no dash. */
  lemma DigitsAvoidDash(s: string)
    requires AllDigits(s)
    ensures Avoids(s, '-')
  {
    forall k | 0 <= k < |s|
      ensures s[k] != '-'
    {
      assert IsDigit(s[k]);
    }
  }
}

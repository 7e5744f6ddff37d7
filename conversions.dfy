/**
 * Conversions between integers and their decimal text, as Python's `str`
 * and `int` perform them on the values this model handles, and `safe_cast`
 * of TotalCoursePoints/utils.py: a conversion that yields a default instead
 * of raising.
 */
module Conversions {
  import opened Wrappers

  predicate IsDigit(c: char) {
    '0' <= c <= '9'
  }

  function DigitChar(d: nat): (c: char)
    requires d < 10
    ensures IsDigit(c)
  {
    "0123456789"[d]
  }

  function DigitValue(c: char): (d: nat)
    requires IsDigit(c)
    ensures d < 10
  {
    c as int - '0' as int
  }

  /** `str(n)` for a non-negative integer. */
  function NatStr(n: nat): (s: string)
    ensures |s| >= 1 && IsDigit(s[0])
    ensures forall i :: 0 <= i < |s| ==> IsDigit(s[i])
  {
    if n < 10 then [DigitChar(n)] else NatStr(n / 10) + [DigitChar(n % 10)]
  }

  /** `str(n)` for any integer. */
  function IntStr(n: int): string {
    if n < 0 then "-" + NatStr(-n) else NatStr(n)
  }

  /** The value of a non-empty string of decimal digits. */
  function DigitsValue(s: string): nat
    requires |s| >= 1 && forall i :: 0 <= i < |s| ==> IsDigit(s[i])
  {
    if |s| == 1 then DigitValue(s[0])
    else 10 * DigitsValue(s[..|s| - 1]) + DigitValue(s[|s| - 1])
  }

  predicate AllDigits(s: string) {
    |s| >= 1 && forall i :: 0 <= i < |s| ==> IsDigit(s[i])
  }

  /**
   * `int(s)` on the strings this model produces and reads: an optional sign
   * followed by ASCII decimal digits; any other string gives `None`, the
   * model of Python's `ValueError`. Python also accepts surrounding
   * whitespace, `_` between digits and non-ASCII digits, which this
   * rejects.
   */
  function ParseInt(s: string): (r: Option<int>)
    ensures r.Some? ==> |s| >= 1
    ensures s == "" ==> r == None
  {
    if |s| >= 1 && (s[0] == '-' || s[0] == '+') then
      var body := s[1..];
      if AllDigits(body) then
        var v: int := DigitsValue(body);
        Some(if s[0] == '-' then -v else v)
      else None
    else if AllDigits(s) then Some(DigitsValue(s))
    else None
  }

  lemma {:induction false} DigitsRoundTrip(n: nat)
    ensures AllDigits(NatStr(n)) && DigitsValue(NatStr(n)) == n
  {
    if n >= 10 {
      DigitsRoundTrip(n / 10);
      var s := NatStr(n);
      assert s[..|s| - 1] == NatStr(n / 10);
      assert DigitValue(DigitChar(n % 10)) == n % 10;
    } else {
      assert DigitValue(DigitChar(n)) == n;
    }
  }

  /** `int(str(n)) == n`. */
  lemma {:induction false} IntStrRoundTrip(n: int)
    ensures ParseInt(IntStr(n)) == Some(n)
  {
    var s := IntStr(n);
    if n < 0 {
      DigitsRoundTrip(-n);
      assert s[0] == '-' && s[1..] == NatStr(-n);
      assert AllDigits(s[1..]) && DigitsValue(s[1..]) == -n;
    } else {
      DigitsRoundTrip(n);
      assert s == NatStr(n) && IsDigit(s[0]);
      assert s[0] != '-' && s[0] != '+';
    }
  }

  /**
   * `safe_cast(val, to_type, default)`: `convert` is the conversion
   * `to_type(val)`, `None` where it raises `ValueError` or `TypeError`.
   */
  function SafeCast<T, U>(val: T, convert: T -> Option<U>, default: U): (r: U)
    ensures convert(val).Some? ==> r == convert(val).value
    ensures convert(val).None? ==> r == default
  {
    match convert(val)
    case Some(v) => v
    case None => default
  }

  lemma {:induction false} SafeCastInt(n: int, default: int)
    ensures SafeCast(IntStr(n), ParseInt, default) == n
    ensures SafeCast("", ParseInt, default) == default
    ensures SafeCast("-", ParseInt, default) == default
  {
    IntStrRoundTrip(n);
    assert !AllDigits("-"[1..]);
  }
}

/**
 * The signed duration `Time` of TotalCoursePoints/utils.py: a sign and
 * days/hours/minutes/seconds components normalised by the constructor.
 * Subtraction, multiplication by an integer and comparison are all defined
 * through the total signed number of seconds.
 */
module Times {
  import opened Wrappers
  import opened Conversions

  /** `sign` is the raw sign argument (only `sign < 0` means negative). */
  datatype Time = Time(sign: int, seconds: nat, minutes: nat, hours: nat, days: nat)

  /** The other operand of `-` and of a comparison: an `int` or a `Time`. */
  datatype Operand = IntOperand(n: int) | TimeOperand(t: Time)

  ghost predicate Normalised(t: Time) {
    t.seconds < 60 && t.minutes < 60 && t.hours < 24
  }

  function Abs(x: int): nat {
    if x < 0 then -x else x
  }

  /** The unsigned number of seconds the components add up to. */
  function Magnitude(t: Time): nat {
    t.seconds + 60 * (t.minutes + 60 * (t.hours + 24 * t.days))
  }

  /**
   * `Time(seconds, minutes, hours, days, sign)` (a `None` component is passed
   * as 0): any negative component makes the value negative, the absolute
   * values are added up and carried into the larger units.
   */
  function MakeTime(seconds: int, minutes: int, hours: int, days: int, sign: int): (t: Time)
    ensures Normalised(t)
    ensures t.sign == if seconds < 0 || minutes < 0 || hours < 0 || days < 0 then -1 else sign
    ensures Magnitude(t) == Abs(seconds) + 60 * Abs(minutes) + 3600 * Abs(hours) + 86400 * Abs(days)
  {
    var sg := if seconds < 0 || minutes < 0 || hours < 0 || days < 0 then -1 else sign;
    var s, m, h, d := Abs(seconds), Abs(minutes), Abs(hours), Abs(days);
    var m' := m + s / 60;
    var h' := h + m' / 60;
    CarryLaw(s, m, h, d);
    Time(sg, s % 60, m' % 60, h' % 24, d + h' / 24)
  }

  lemma CarryLaw(s: nat, m: nat, h: nat, d: nat)
    ensures var m' := m + s / 60;
            var h' := h + m' / 60;
            Magnitude(Time(0, s % 60, m' % 60, h' % 24, d + h' / 24)) == s + 60 * m + 3600 * h + 86400 * d
  {
    var m' := m + s / 60;
    var h' := h + m' / 60;
    assert s == 60 * (s / 60) + s % 60;
    assert m' == 60 * (m' / 60) + m' % 60;
    assert h' == 24 * (h' / 24) + h' % 24;
  }

  /** `get_sign`. */
  function GetSign(t: Time): (r: int)
    ensures r == 1 || r == -1
    ensures r == -1 <==> t.sign < 0
  {
    if t.sign < 0 then -1 else 1
  }

  /** `get_seconds`: the total signed number of seconds. */
  function GetSeconds(t: Time): int {
    (t.seconds + 60 * (t.minutes + 60 * (t.hours + 24 * t.days))) * GetSign(t)
  }

  /** `Time(seconds=n)`. */
  function FromSeconds(n: int): Time {
    MakeTime(n, 0, 0, 0, 0)
  }

  lemma {:induction false} FromSecondsRoundTrip(n: int)
    ensures Normalised(FromSeconds(n))
    ensures GetSeconds(FromSeconds(n)) == n
    ensures GetSign(FromSeconds(n)) == -1 <==> n < 0
  {
    assert Magnitude(FromSeconds(n)) == Abs(n);
  }

  /** `ceil_to_days`: whole days, rounding any part of a day up. */
  function CeilToDays(t: Time): int {
    var m := t.minutes + CeilDiv(t.seconds, 60);
    var h := t.hours + CeilDiv(m, 60);
    t.days + CeilDiv(h, 24)
  }

  /** `ceil_to_hours`: whole hours, rounding any part of an hour up. */
  function CeilToHours(t: Time): int {
    var m := t.minutes + CeilDiv(t.seconds, 60);
    var h := t.hours + CeilDiv(m, 60);
    h + t.days * 24
  }

  /** Python's `math.ceil(a / b)` for a positive divisor. */
  function CeilDiv(a: int, b: int): (q: int)
    requires b > 0
    ensures (q - 1) * b < a <= q * b
  {
    -((-a) / b)
  }

  /** Rounding up a fraction of at most one whole. */
  lemma CeilDivUnit(a: int, b: int)
    requires b > 0 && 0 <= a <= b
    ensures CeilDiv(a, b) == if a == 0 then 0 else 1
  {
    if a != 0 {
      NegUnitDiv(a, b);
    }
  }

  /** Minus a fraction of at most one whole, divided Euclidean-style, is minus one. */
  lemma NegUnitDiv(a: int, b: int)
    requires 0 < a <= b
    ensures (-a) / b == -1
  {
    var q := (-a) / b;
    var r := (-a) % b;
    assert -a == q * b + r && 0 <= r < b;
    assert q >= 0 ==> q * b >= 0;
    assert q <= -2 ==> q * b <= -2 * b;
  }

  lemma {:induction false} CeilToDaysLaw(t: Time)
    requires Normalised(t)
    ensures CeilToDays(t) == t.days + (if t.hours != 0 || t.minutes != 0 || t.seconds != 0 then 1 else 0)
    ensures (CeilToDays(t) - 1) * 86400 < Magnitude(t) <= CeilToDays(t) * 86400
  {
    CeilToDaysValue(t);
    assert Magnitude(t) == t.seconds + 60 * t.minutes + 3600 * t.hours + 86400 * t.days;
  }

  lemma CeilToDaysValue(t: Time)
    requires Normalised(t)
    ensures CeilToDays(t) == t.days + (if t.hours != 0 || t.minutes != 0 || t.seconds != 0 then 1 else 0)
  {
    var c1 := CeilDiv(t.seconds, 60);
    CeilDivUnit(t.seconds, 60);
    assert c1 == if t.seconds == 0 then 0 else 1;
    var m := t.minutes + c1;
    var c2 := CeilDiv(m, 60);
    CeilDivUnit(m, 60);
    assert c2 == if m == 0 then 0 else 1;
    var h := t.hours + c2;
    var c3 := CeilDiv(h, 24);
    CeilDivUnit(h, 24);
    assert c3 == if h == 0 then 0 else 1;
    assert CeilToDays(t) == t.days + c3;
  }

  lemma {:induction false} CeilToHoursLaw(t: Time)
    requires Normalised(t)
    ensures CeilToHours(t) == 24 * t.days + t.hours + (if t.minutes != 0 || t.seconds != 0 then 1 else 0)
    ensures (CeilToHours(t) - 1) * 3600 < Magnitude(t) <= CeilToHours(t) * 3600
  {
    var m := t.minutes + CeilDiv(t.seconds, 60);
    CeilDivUnit(t.seconds, 60);
    CeilDivUnit(m, 60);
    assert Magnitude(t) == t.seconds + 60 * t.minutes + 3600 * t.hours + 86400 * t.days;
  }

  /** `self - other` for a `Time` operand: a new `Time`, negative when the difference is. */
  function Sub(a: Time, b: Time): Time {
    var t := GetSeconds(a) - GetSeconds(b);
    if t < 0 then MakeTime(t * -1, 0, 0, 0, -1) else FromSeconds(t)
  }

  /** `self - other` for an `int` operand: a plain number of seconds. */
  function SubInt(a: Time, n: int): int {
    GetSeconds(a) - n
  }

  /** `other - self` (`__rsub__`) for an `int` operand. */
  function RSubInt(n: int, a: Time): int {
    n - GetSeconds(a)
  }

  /** `other - self` (`__rsub__`) for a `Time` operand. */
  function RSub(a: Time, other: Time): Time {
    var t := GetSeconds(other) - GetSeconds(a);
    if t < 0 then MakeTime(t * -1, 0, 0, 0, -1) else FromSeconds(t)
  }

  lemma {:induction false} SubtractionLaws(a: Time, b: Time, n: int)
    ensures Normalised(Sub(a, b))
    ensures GetSeconds(Sub(a, b)) == GetSeconds(a) - GetSeconds(b)
    ensures GetSign(Sub(a, b)) == -1 <==> GetSeconds(a) < GetSeconds(b)
    ensures GetSeconds(RSub(b, a)) == GetSeconds(Sub(a, b))
    ensures GetSeconds(Sub(b, a)) == -GetSeconds(Sub(a, b))
    ensures SubInt(a, n) == -RSubInt(n, a)
  {
    var t := GetSeconds(a) - GetSeconds(b);
    assert Magnitude(Sub(a, b)) == Abs(t);
    assert Magnitude(Sub(b, a)) == Abs(t);
    assert Magnitude(RSub(b, a)) == Abs(t);
  }

  /** `self * k` and `k * self` for an integer `k`. */
  function Mul(t: Time, k: int): Time {
    FromSeconds(GetSeconds(t) * k)
  }

  lemma {:induction false} MulLaw(t: Time, k: int)
    ensures GetSeconds(Mul(t, k)) == GetSeconds(t) * k
    ensures GetSign(Mul(t, k)) == -1 <==> GetSeconds(t) * k < 0
  {
    FromSecondsRoundTrip(GetSeconds(t) * k);
  }

  /**
   * `get_count(interval)`: the number of `interval`s subtracted from the
   * value until nothing positive is left, i.e. the number of whole intervals
   * needed to cover a positive lateness.  The source loops forever when the
   * value is positive and the interval is not; the `requires` excludes that.
   */
  method GetCount(t: Time, interval: Time) returns (count: nat)
    requires GetSeconds(t) == 0 || GetSeconds(interval) > 0 || GetSeconds(t) <= GetSeconds(interval)
    ensures count == 0 <==> GetSeconds(t) == 0
    ensures GetSeconds(t) > 0 ==>
      (count - 1) * GetSeconds(interval) < GetSeconds(t) <= count * GetSeconds(interval)
    ensures GetSeconds(t) < 0 ==> count == 1
  {
    ghost var total, step := GetSeconds(t), GetSeconds(interval);
    count := 0;
    if GetSeconds(t) == 0 {
      return;
    }
    var lateAmt := t;
    count := count + 1;
    SubtractionLaws(lateAmt, interval, 0);
    lateAmt := Sub(lateAmt, interval);
    while GetSeconds(lateAmt) > 0
      invariant count >= 1
      invariant GetSeconds(lateAmt) == total - count * step
      invariant GetSeconds(lateAmt) > 0 ==> step > 0 && total > 0
      invariant total > 0 ==> (count - 1) * step < total
      invariant total < 0 ==> count == 1
      decreases GetSeconds(lateAmt)
    {
      ghost var before := GetSeconds(lateAmt);
      assert (count + 1) * step == count * step + step;
      count := count + 1;
      SubtractionLaws(lateAmt, interval, 0);
      lateAmt := Sub(lateAmt, interval);
      assert GetSeconds(lateAmt) == before - step;
    }
  }

  /**
   * The loop of `get_count` as written, run for at most `fuel` rounds: the
   * count it returns, or `None` while it is still going.
   */
  function CountRounds(lateAmt: Time, interval: Time, count: nat, fuel: nat): Option<nat>
    decreases fuel
  {
    if fuel == 0 then None
    else
      var next := Sub(lateAmt, interval);
      if GetSeconds(next) <= 0 then Some(count + 1)
      else CountRounds(next, interval, count + 1, fuel - 1)
  }

  /** `get_count` as written, with at most `fuel` rounds of its loop. */
  function CountAsWritten(t: Time, interval: Time, fuel: nat): Option<nat> {
    if GetSeconds(t) == 0 then Some(0) else CountRounds(t, interval, 0, fuel)
  }

  /**
   * As written, a value that is not zero, with an interval that is not
   * positive and below the value, never leaves the loop: no number of
   * rounds is enough.
   */
  lemma CountAsWrittenNeverEnds(t: Time, interval: Time, fuel: nat)
    requires GetSeconds(t) != 0 && GetSeconds(interval) <= 0 && GetSeconds(t) > GetSeconds(interval)
    ensures CountAsWritten(t, interval, fuel).None?
  {
    RoundsNeverEnd(t, interval, 0, fuel);
  }

  lemma {:induction false} RoundsNeverEnd(lateAmt: Time, interval: Time, count: nat, fuel: nat)
    requires GetSeconds(interval) <= 0 && GetSeconds(lateAmt) > GetSeconds(interval)
    ensures CountRounds(lateAmt, interval, count, fuel).None?
    decreases fuel
  {
    if fuel > 0 {
      SubtractionLaws(lateAmt, interval, 0);
      RoundsNeverEnd(Sub(lateAmt, interval), interval, count + 1, fuel - 1);
    }
  }

  /** One minute counted in zero-length intervals never finishes as written. */
  lemma ZeroIntervalNeverEnds(fuel: nat)
    ensures CountAsWritten(FromSeconds(60), FromSeconds(0), fuel).None?
  {
    FromSecondsRoundTrip(60);
    FromSecondsRoundTrip(0);
    CountAsWrittenNeverEnds(FromSeconds(60), FromSeconds(0), fuel);
  }

  /**
   * `get_count` with the guard its loop needs: a `ValueError` exactly where
   * the loop as written never ends, and otherwise the count.
   */
  method GetCountChecked(t: Time, interval: Time) returns (r: Result<nat>)
    ensures r.Err? <==> GetSeconds(t) != 0 && GetSeconds(interval) <= 0 && GetSeconds(t) > GetSeconds(interval)
    ensures r.Ok? ==> (r.value == 0 <==> GetSeconds(t) == 0)
    ensures r.Ok? && GetSeconds(t) > 0 ==>
      (r.value - 1) * GetSeconds(interval) < GetSeconds(t) <= r.value * GetSeconds(interval)
    ensures r.Ok? && GetSeconds(t) < 0 ==> r.value == 1
  {
    if GetSeconds(t) != 0 && GetSeconds(interval) <= 0 && GetSeconds(t) > GetSeconds(interval) {
      return Err(ValueError("the interval must be positive"));
    }
    var count := GetCount(t, interval);
    return Ok(count);
  }

  /** `_compare` on the comparison the operator names. */
  datatype Comparison = Lt | Le | Eq | Ge | Gt | Ne

  function OperandSeconds(other: Operand): int {
    match other
    case IntOperand(n) => n
    case TimeOperand(o) => GetSeconds(o)
  }

  /** `<`, `<=`, `==`, `>=`, `>` and `!=` between a `Time` and an `int` or a `Time`. */
  function Compare(a: Time, other: Operand, op: Comparison): bool {
    var s, o := GetSeconds(a), OperandSeconds(other);
    match op
    case Lt => s < o
    case Le => s <= o
    case Eq => s == o
    case Ge => s >= o
    case Gt => s > o
    case Ne => s != o
  }

  /**
   * The six comparisons are mutually consistent, and equality is exactly
   * equality of total seconds, so a value equals its own round trip and a
   * `Time` equals the `int` of its seconds.
   */
  lemma {:induction false} ComparisonLaws(a: Time, other: Operand)
    ensures Compare(a, other, Lt) <==> !Compare(a, other, Ge)
    ensures Compare(a, other, Gt) <==> !Compare(a, other, Le)
    ensures Compare(a, other, Ne) <==> !Compare(a, other, Eq)
    ensures Compare(a, other, Eq) <==> Compare(a, other, Le) && Compare(a, other, Ge)
    ensures Compare(a, TimeOperand(FromSeconds(GetSeconds(a))), Eq)
    ensures Compare(a, IntOperand(GetSeconds(a)), Eq)
    ensures Compare(a, other, Eq) <==> Compare(a, IntOperand(OperandSeconds(other)), Eq)
  {
    FromSecondsRoundTrip(GetSeconds(a));
  }

  /** One unit of `pretty_time_str`: empty for 0, singular for 1, plural otherwise. */
  function UnitStr(n: nat, unit: string): string {
    if n == 0 then "" else NatStr(n) + " " + unit + (if n == 1 then "" else "s")
  }

  /** One step of the loop of `pretty_time_str`: append `part`, space-separated. */
  function JoinStep(st: string, part: string): string {
    (if st != "" && part != "" then st + " " else st) + part
  }

  /** The loop of `pretty_time_str` run over `parts`, starting from `first`. */
  function Joined(first: string, parts: seq<string>): string {
    if parts == [] then first
    else JoinStep(Joined(first, parts[..|parts| - 1]), parts[|parts| - 1])
  }

  function UnitParts(t: Time): seq<string> {
    [UnitStr(t.hours, "hour"), UnitStr(t.minutes, "minute"), UnitStr(t.seconds, "second")]
  }

  /** What `pretty_time_str` returns. */
  function Pretty(t: Time): string {
    var st := Joined(UnitStr(t.days, "day"), UnitParts(t));
    if st == "" then "0 seconds" else (if GetSign(t) < 0 then "- " else "") + st
  }

  /** `pretty_time_str`. */
  method PrettyTimeStr(t: Time) returns (st: string)
    ensures st == Pretty(t)
  {
    var parts := UnitParts(t);
    st := UnitStr(t.days, "day");
    var i := 0;
    while i < |parts|
      invariant 0 <= i <= |parts|
      invariant st == Joined(UnitStr(t.days, "day"), parts[..i])
    {
      var part := parts[i];
      if st != "" && part != "" {
        st := st + " ";
      }
      st := st + part;
      assert parts[..i + 1][..i] == parts[..i];
      i := i + 1;
    }
    assert parts[..i] == parts;
    if st == "" {
      st := "0 seconds";
    } else {
      var sign := if GetSign(t) < 0 then "- " else "";
      st := sign + st;
    }
  }

  predicate EmptyOrDigitFirst(s: string) {
    s == "" || IsDigit(s[0])
  }

  lemma {:induction false} JoinedShape(first: string, parts: seq<string>)
    requires EmptyOrDigitFirst(first)
    requires forall i :: 0 <= i < |parts| ==> EmptyOrDigitFirst(parts[i])
    ensures EmptyOrDigitFirst(Joined(first, parts))
    ensures Joined(first, parts) == "" <==> first == "" && forall i :: 0 <= i < |parts| ==> parts[i] == ""
  {
    if parts != [] {
      var init := parts[..|parts| - 1];
      JoinedShape(first, init);
      assert forall i :: 0 <= i < |init| ==> init[i] == parts[i];
    }
  }

  /**
   * A unit is written with a trailing "s" exactly when its count is not 1,
   * and the text starts with the count.
   */
  lemma {:induction false} UnitPlural(n: nat, unit: string)
    requires n > 0 && unit != "" && unit[|unit| - 1] != 's'
    ensures var u := UnitStr(n, unit);
      && |u| > |NatStr(n)| && u[..|NatStr(n)|] == NatStr(n)
      && (u[|u| - 1] == 's' <==> n != 1)
  {
  }

  /**
   * `pretty_time_str` gives "0 seconds" exactly for an all-zero value, and
   * otherwise starts with "- " exactly when the value is negative, followed
   * by the count of the largest non-zero unit.
   */
  lemma {:induction false} PrettyShape(t: Time)
    ensures (t.days == 0 && t.hours == 0 && t.minutes == 0 && t.seconds == 0) ==> Pretty(t) == "0 seconds"
    ensures (t.days != 0 || t.hours != 0 || t.minutes != 0 || t.seconds != 0) ==>
      var p := Pretty(t);
      && |p| >= 1
      && ((|p| >= 2 && p[..2] == "- ") <==> t.sign < 0)
      && (t.sign < 0 ==> IsDigit(p[2]))
      && (t.sign >= 0 ==> IsDigit(p[0]))
  {
    var parts := UnitParts(t);
    assert forall i :: 0 <= i < |parts| ==> EmptyOrDigitFirst(parts[i]);
    JoinedShape(UnitStr(t.days, "day"), parts);
    assert parts[0] == "" <==> t.hours == 0;
    assert parts[1] == "" <==> t.minutes == 0;
    assert parts[2] == "" <==> t.seconds == 0;
    var st := Joined(UnitStr(t.days, "day"), parts);
    if st != "" && t.sign >= 0 {
      assert Pretty(t) == st && IsDigit(st[0]);
      assert Pretty(t)[0] != '-';
    }
  }
}

/**
 * The three fixed patterns of the engine (`Number`, `Date`, `Datetime`),
 * written out over ASCII digits, and the calendar rules that
 * `datetime.strptime` applies to the fields it reads.
 */
module Formats {
  import opened Wrappers
  import opened Values

  predicate IsDigit(c: char) {
    '0' <= c <= '9'
  }

  /** `\d*` */
  predicate AllDigits(s: string) {
    forall j :: 0 <= j < |s| ==> IsDigit(s[j])
  }

  /** `\d+` */
  predicate Digits1(s: string) {
    |s| > 0 && AllDigits(s)
  }

  function DigitsValue(s: string): (n: nat)
    requires AllDigits(s)
  {
    if s == [] then 0
    else 10 * DigitsValue(s[..|s| - 1]) + (s[|s| - 1] as int - '0' as int)
  }

  /** Position of the first `.` in `s`. */
  function DotIndex(s: string): (r: Option<nat>)
    ensures r.None? <==> '.' !in s
    ensures r.Some? ==> r.value < |s| && s[r.value] == '.' && '.' !in s[..r.value]
  {
    if |s| == 0 then None
    else if s[0] == '.' then Some(0)
    else
      match DotIndex(s[1..])
      case None =>
        assert s == [s[0]] + s[1..];
        None
      case Some(j) =>
        assert s[..j + 1] == [s[0]] + s[1..][..j];
        Some(j + 1)
  }

  /** The pattern `^\d+(\.\d+)?$` of `Number`. */
  predicate IsNumberLiteral(s: string) {
    match DotIndex(s)
    case None => Digits1(s)
    case Some(d) => Digits1(s[..d]) && Digits1(s[d + 1..])
  }

  /** The digits of a number literal without its point, and how many follow the point. */
  function LiteralDigits(s: string): (r: (string, nat))
    requires IsNumberLiteral(s)
    ensures AllDigits(r.0)
  {
    match DotIndex(s)
    case None => (s, 0)
    case Some(d) => (s[..d] + s[d + 1..], |s| - d - 1)
  }

  /** The exact value `mantissa / 10^scale` a number literal denotes. */
  function LiteralValue(s: string): (r: (int, nat))
    requires IsNumberLiteral(s)
  {
    var (digits, scale) := LiteralDigits(s);
    (DigitsValue(digits), scale)
  }

  /** The pattern `^\d{4}-\d{2}-\d{2}$` of `Date`. */
  predicate IsDateText(s: string) {
    && |s| == 10
    && AllDigits(s[0..4]) && s[4] == '-'
    && AllDigits(s[5..7]) && s[7] == '-'
    && AllDigits(s[8..10])
  }

  /** `YYYY-MM-DDTHH:MM:SS`, the fixed-width head of a datetime. */
  predicate IsDatetimeHead(s: string) {
    && |s| >= 19
    && AllDigits(s[0..4]) && s[4] == '-'
    && AllDigits(s[5..7]) && s[7] == '-'
    && AllDigits(s[8..10]) && s[10] == 'T'
    && AllDigits(s[11..13]) && s[13] == ':'
    && AllDigits(s[14..16]) && s[16] == ':'
    && AllDigits(s[17..19])
  }

  /** `(\.\d*)?Z?` */
  predicate IsFractionZone(r: string) {
    || r == []
    || r == "Z"
    || (r[0] == '.' && (AllDigits(r[1..]) || (r[|r| - 1] == 'Z' && AllDigits(r[1..|r| - 1]))))
  }

  /** The pattern `^\d{4}-\d{2}-\d{2}T\d{2}:\d{2}:\d{2}(\.\d*)?Z?$` of `Datetime`. */
  predicate IsDatetimeText(s: string) {
    IsDatetimeHead(s) && IsFractionZone(s[19..])
  }

  predicate IsLeapYear(y: int) {
    y % 4 == 0 && (y % 100 != 0 || y % 400 == 0)
  }

  function DaysInMonth(y: int, m: int): int
    requires 1 <= m <= 12
  {
    if m == 2 then (if IsLeapYear(y) then 29 else 28)
    else if m == 4 || m == 6 || m == 9 || m == 11 then 30
    else 31
  }

  /** A real Gregorian date (the year is at most 9999 because it has four digits). */
  predicate IsCalendarDate(y: int, m: int, d: int) {
    1 <= y && 1 <= m <= 12 && 1 <= d <= DaysInMonth(y, m)
  }

  predicate IsClockTime(h: int, mi: int, sec: int) {
    0 <= h <= 23 && 0 <= mi <= 59 && 0 <= sec <= 59
  }

  /** `datetime.strptime(s, '%Y-%m-%d').date()` on a string of the `Date` pattern. */
  function StrptimeDate(s: string): (r: Option<Value>)
    ensures r.Some? ==> IsDateText(s) && r.value.VDate?
    ensures r.Some? ==> IsCalendarDate(r.value.year, r.value.month, r.value.day)
    ensures IsDateText(s) && IsCalendarDate(DigitsValue(s[0..4]), DigitsValue(s[5..7]), DigitsValue(s[8..10]))
            ==> r == Some(VDate(DigitsValue(s[0..4]), DigitsValue(s[5..7]), DigitsValue(s[8..10])))
  {
    if !IsDateText(s) then None
    else
      var y, m, d := DigitsValue(s[0..4]), DigitsValue(s[5..7]), DigitsValue(s[8..10]);
      if IsCalendarDate(y, m, d) then Some(VDate(y, m, d)) else None
  }

  /** The three formats `Datetime.parse` tries, in this order. */
  datatype DatetimeFormat =
    | WholeSeconds   // '%Y-%m-%dT%H:%M:%S'
    | Fraction       // '%Y-%m-%dT%H:%M:%S.%f'
    | FractionZ      // '%Y-%m-%dT%H:%M:%S.%fZ'

  /** `k` zero characters. */
  function Zeros(k: nat): (r: string)
    ensures |r| == k && AllDigits(r)
  {
    if k == 0 then [] else Zeros(k - 1) + ['0']
  }

  /** `digits` right-padded with zeros to six characters. */
  function ZeroPad(digits: string): (r: string)
    requires |digits| <= 6
  {
    digits + Zeros(6 - |digits|)
  }

  /** A digit appended on the right: the value is shifted one place and the digit added. */
  lemma AppendDigit(y: string, c: char)
    requires AllDigits(y) && IsDigit(c)
    ensures AllDigits(y + [c])
    ensures DigitsValue(y + [c]) == 10 * DigitsValue(y) + (c as int - '0' as int)
  {
    var z := y + [c];
    assert z[..|z| - 1] == y;
  }

  /** Zeros appended on the right multiply the value by a power of ten. */
  lemma {:induction false} AppendZeros(s: string, k: nat)
    requires AllDigits(s)
    ensures AllDigits(s + Zeros(k))
    ensures DigitsValue(s + Zeros(k)) == DigitsValue(s) * Pow10(k)
  {
    if k == 0 {
      assert s + Zeros(k) == s;
    } else {
      AppendZeros(s, k - 1);
      var y := s + Zeros(k - 1);
      assert Zeros(k) == Zeros(k - 1) + ['0'];
      assert s + Zeros(k) == y + ['0'];
      AppendDigit(y, '0');
      ShiftPlace(DigitsValue(s), Pow10(k - 1));
    }
  }

  lemma ShiftPlace(d: int, p: int)
    ensures 10 * (d * p) == d * (10 * p)
  {
  }

  /** `n` digits denote a number below `10^n`. */
  lemma {:induction false} DigitsBelow(s: string)
    requires AllDigits(s)
    ensures DigitsValue(s) < Pow10(|s|)
  {
    if s != [] {
      DigitsBelow(s[..|s| - 1]);
    }
  }

  /** `%f`: one to six digits, read as microseconds (the digits padded to six). */
  function Microseconds(digits: string): (us: nat)
    requires 1 <= |digits| <= 6 && AllDigits(digits)
    ensures AllDigits(ZeroPad(digits)) && us == DigitsValue(ZeroPad(digits))
    ensures us < 1000000
  {
    AppendZeros(digits, 6 - |digits|);
    DigitsBelow(ZeroPad(digits));
    DigitsValue(digits) * Pow10(6 - |digits|)
  }

  /** The microseconds the text after the seconds denotes under `format`, if it fits. */
  function FormatTail(format: DatetimeFormat, tail: string): (r: Option<nat>)
    ensures r.Some? && format == WholeSeconds ==> tail == []
    ensures r.Some? && format != WholeSeconds ==> 2 <= |tail| && tail[0] == '.'
    ensures r.Some? && format == Fraction ==>
      |tail| <= 7 && AllDigits(ZeroPad(tail[1..])) && r.value == DigitsValue(ZeroPad(tail[1..]))
    ensures r.Some? && format == FractionZ ==>
      (&& 3 <= |tail| <= 8 && tail[|tail| - 1] == 'Z'
       && AllDigits(ZeroPad(tail[1..|tail| - 1])) && r.value == DigitsValue(ZeroPad(tail[1..|tail| - 1])))
    ensures r.Some? ==> r.value < 1000000
  {
    match format
    case WholeSeconds => if tail == [] then Some(0) else None
    case Fraction =>
      if 2 <= |tail| <= 7 && tail[0] == '.' && AllDigits(tail[1..])
      then Some(Microseconds(tail[1..])) else None
    case FractionZ =>
      if 3 <= |tail| <= 8 && tail[0] == '.' && tail[|tail| - 1] == 'Z' && AllDigits(tail[1..|tail| - 1])
      then Some(Microseconds(tail[1..|tail| - 1])) else None
  }

  /** `datetime.strptime(s, format)`: `None` stands for its `ValueError`. */
  function Strptime(s: string, format: DatetimeFormat): (r: Option<Value>)
    ensures r.Some? ==> IsDatetimeHead(s) && r.value.VDatetime?
    ensures r.Some? ==> IsCalendarDate(r.value.year, r.value.month, r.value.day)
    ensures r.Some? ==> IsClockTime(r.value.hour, r.value.minute, r.value.second)
    ensures r.Some? <==> IsDatetimeHead(s) && FormatTail(format, s[19..]).Some?
                         && IsCalendarDate(DigitsValue(s[0..4]), DigitsValue(s[5..7]), DigitsValue(s[8..10]))
                         && IsClockTime(DigitsValue(s[11..13]), DigitsValue(s[14..16]), DigitsValue(s[17..19]))
    ensures r.Some? ==>
      (&& IsDatetimeHead(s) && FormatTail(format, s[19..]).Some?
       && r.value == VDatetime(DigitsValue(s[0..4]), DigitsValue(s[5..7]), DigitsValue(s[8..10]),
                               DigitsValue(s[11..13]), DigitsValue(s[14..16]), DigitsValue(s[17..19]),
                               FormatTail(format, s[19..]).value))
  {
    if !IsDatetimeHead(s) then None
    else
      var y, mo, d := DigitsValue(s[0..4]), DigitsValue(s[5..7]), DigitsValue(s[8..10]);
      var h, mi, sec := DigitsValue(s[11..13]), DigitsValue(s[14..16]), DigitsValue(s[17..19]);
      match FormatTail(format, s[19..])
      case None => None
      case Some(us) =>
        if IsCalendarDate(y, mo, d) && IsClockTime(h, mi, sec)
        then Some(VDatetime(y, mo, d, h, mi, sec, us)) else None
  }

  /** `Datetime.parse`: the first of the three formats that fits. */
  function StrptimeDatetime(s: string): (r: Option<Value>)
    ensures r.Some? <==> Strptime(s, WholeSeconds).Some? || Strptime(s, Fraction).Some? || Strptime(s, FractionZ).Some?
    ensures Strptime(s, WholeSeconds).Some? ==> r == Strptime(s, WholeSeconds)
    ensures Strptime(s, WholeSeconds).None? && Strptime(s, Fraction).Some? ==> r == Strptime(s, Fraction)
    ensures Strptime(s, WholeSeconds).None? && Strptime(s, Fraction).None? ==> r == Strptime(s, FractionZ)
  {
    match Strptime(s, WholeSeconds)
    case Some(t) => Some(t)
    case None =>
      match Strptime(s, Fraction)
      case Some(t) => Some(t)
      case None => Strptime(s, FractionZ)
  }
}

/**
 * What each scalar variant accepts in the validation pass (its "gate"),
 * what its parse hook produces, and how `get_parsed_value` runs the user
 * condition and, for `Number`, the bounds.
 */
module ScalarRules {
  import opened Wrappers
  import opened Values
  import opened Errors
  import opened Formats
  import opened Variants

  // ---- gates of the validation pass ----

  /** A strict `String` accepts exactly the strings; a lenient one accepts anything. */
  lemma StringGate(strict: bool, c: Condition, v: Value)
    ensures ValidateVariant(String(strict, c), v).Pass? <==> !strict || v.VStr?
    ensures strict && !v.VStr? ==> ValidateVariant(String(strict, c), v) == Fail(Refuse(String(strict, c), v, "is not a string"))
  {
  }

  /** A lenient `String` parses any value to its `str()`, and leaves a string as it is. */
  lemma StringParse(strict: bool, c: Condition, v: Value)
    ensures ParseVariant(String(strict, c), v) == Ok(VStr(PyStr(v)))
    ensures v.VStr? ==> ParseVariant(String(strict, c), v) == Ok(v)
  {
  }

  /** `RegexString` accepts exactly the strings its pattern matches, and parses them to themselves. */
  lemma RegexGate(regex: string, matches: string -> bool, c: Condition, v: Value)
    ensures ValidateVariant(RegexString(regex, matches, c), v).Pass? <==> v.VStr? && matches(v.s)
    ensures !(v.VStr? && matches(v.s)) ==>
      ValidateVariant(RegexString(regex, matches, c), v)
        == Fail(Refuse(RegexString(regex, matches, c), v, "doesn't match pattern " + regex))
    ensures ParseVariant(RegexString(regex, matches, c), v) == Ok(v)
  {
  }

  /** `Null` accepts exactly `None`. */
  lemma NullGate(v: Value)
    ensures ValidateVariant(Null, v).Pass? <==> v == VNull
    ensures v != VNull ==> ValidateVariant(Null, v) == Fail(Refuse(Null, v, "is not null"))
  {
  }

  /** `Constant(c)` accepts exactly `c`, and reports its `repr` in message and trace. */
  lemma ConstantGate(c: Value, v: Value)
    ensures ValidateVariant(Constant(c), v).Pass? <==> v == c
    ensures v != c ==>
      ValidateVariant(Constant(c), v) == Fail(Invalid(ValidationError(v, "is not equals to " + PyRepr(c), Trace([], Named("Constant(" + PyRepr(c) + ")")))))
  {
  }

  /**
   * `Boolean` accepts the two booleans; a lenient one also accepts the
   * admissible tokens. Strict mode and lenient mode report different messages.
   */
  lemma BooleanGate(strict: bool, v: Value)
    ensures ValidateVariant(Boolean(strict), v).Pass? <==> v.VBool? || (!strict && (v in TrueTokens || v in FalseTokens))
    ensures !v.VBool? && strict ==> ValidateVariant(Boolean(strict), v) == Fail(Refuse(Boolean(strict), v, "is not boolean"))
    ensures !v.VBool? && !strict && v !in TrueTokens && v !in FalseTokens ==>
      ValidateVariant(Boolean(strict), v) == Fail(Refuse(Boolean(strict), v, "can't be interpreted as boolean"))
  {
  }

  /**
   * `Boolean.parse`: a boolean is kept, a false token becomes `False`, and
   * everything else (every true token among them) becomes `True`.
   */
  lemma BooleanParse(strict: bool, v: Value)
    ensures v.VBool? ==> ParseVariant(Boolean(strict), v) == Ok(v)
    ensures v in FalseTokens ==> ParseVariant(Boolean(strict), v) == Ok(VBool(false))
    ensures v in TrueTokens ==> ParseVariant(Boolean(strict), v) == Ok(VBool(true))
    ensures !v.VBool? && v !in FalseTokens ==> ParseVariant(Boolean(strict), v) == Ok(VBool(true))
  {
    assert forall j :: 0 <= j < |TrueTokens| ==> TrueTokens[j] !in FalseTokens;
  }

  /**
   * `Number` accepts every int, bool and float; a lenient one also accepts
   * the strings of the pattern `^\d+(\.\d+)?$`, which has no sign and no exponent.
   */
  lemma NumberGate(lo: Option<int>, hi: Option<int>, strict: bool, c: Condition, v: Value)
    ensures ValidateVariant(Number(lo, hi, strict, c), v).Pass?
        <==> v.IsNumber() || (!strict && v.VStr? && IsNumberLiteral(v.s))
    ensures !v.IsNumber() && (strict || !v.VStr?) ==>
      ValidateVariant(Number(lo, hi, strict, c), v) == Fail(Refuse(Number(lo, hi, strict, c), v, "is not a number"))
    ensures !strict && v.VStr? && !IsNumberLiteral(v.s) ==>
      ValidateVariant(Number(lo, hi, strict, c), v)
        == Fail(Refuse(Number(lo, hi, strict, c), v, "is not a validly formatted number"))
  {
  }

  /** `Date` accepts exactly the strings of the pattern `^\d{4}-\d{2}-\d{2}$`. */
  lemma DateGate(c: Condition, v: Value)
    ensures ValidateVariant(Date(c), v).Pass? <==> v.VStr? && IsDateText(v.s)
    ensures !(v.VStr? && IsDateText(v.s)) ==>
      ValidateVariant(Date(c), v) == Fail(Refuse(Date(c), v, "doesn't match pattern " + DatePattern))
  {
  }

  /** `Datetime` accepts exactly the strings of its pattern. */
  lemma DatetimeGate(c: Condition, v: Value)
    ensures ValidateVariant(Datetime(c), v).Pass? <==> v.VStr? && IsDatetimeText(v.s)
    ensures !(v.VStr? && IsDatetimeText(v.s)) ==>
      ValidateVariant(Datetime(c), v) == Fail(Refuse(Datetime(c), v, "doesn't match pattern " + DatetimePattern))
  {
  }

  // ---- Number.parse ----

  /** A decimal that is a whole number becomes that int. */
  lemma {:induction false} NormalizeWhole(m: int, scale: nat)
    requires m % Pow10(scale) == 0
    ensures Normalize(m, scale) == VInt(m / Pow10(scale))
    decreases scale
  {
    if scale > 0 {
      WholeIsMultipleOfTen(m, scale);
      var p := Pow10(scale - 1);
      var q := m / Pow10(scale);
      assert Pow10(scale) == 10 * p;
      assert m == q * (10 * p);
      assert m / 10 == q * p by {
        assert q * (10 * p) == 10 * (q * p);
      }
      MultipleOf(q, p);
      NormalizeWhole(m / 10, scale - 1);
    }
  }

  lemma MultipleOf(q: int, p: nat)
    requires p > 0
    ensures (q * p) % p == 0 && (q * p) / p == q
  {
    var x := q * p;
    var d, r := x / p, x % p;
    assert x == p * d + r && 0 <= r < p;
    assert p * (q - d) == r;
    var k := q - d;
    assert k >= 1 ==> p * k >= p;
    assert k <= -1 ==> p * k <= -(p as int);
  }

  /** A decimal that is not a whole number stays a float. */
  lemma NormalizeFraction(m: int, scale: nat)
    requires m % Pow10(scale) != 0
    ensures Normalize(m, scale).VReal?
  {
    var r := Normalize(m, scale);
    if r.VInt? {
      MultipleOf(r.i, Pow10(scale));
    }
  }

  /**
   * `Number.parse` of a string the lenient gate accepts is exact: a whole
   * number becomes the int it denotes, anything else the float with the
   * same value.
   */
  lemma NumberParseExact(s: string)
    requires IsNumberLiteral(s)
    ensures ParseNumber(VStr(s)).Ok?
    ensures var (m, scale) := LiteralValue(s);
      && (m % Pow10(scale) == 0 ==> ParseNumber(VStr(s)) == Ok(VInt(m / Pow10(scale))))
      && (m % Pow10(scale) != 0 ==>
            var r := ParseNumber(VStr(s)).value;
            r.VReal? && r.mantissa * Pow10(scale - r.scale) == m)
  {
    var (m, scale) := LiteralValue(s);
    if m % Pow10(scale) == 0 {
      NormalizeWhole(m, scale);
    } else {
      NormalizeFraction(m, scale);
    }
  }

  /** Every value the `Number` gate accepts parses to a number (no `ValueError`, no `TypeError`). */
  lemma NumberParsesWhatItAccepts(lo: Option<int>, hi: Option<int>, strict: bool, c: Condition, v: Value)
    requires ValidateVariant(Number(lo, hi, strict, c), v).Pass?
    ensures ParseNumber(v).Ok?
    ensures ParseNumber(v).value.VInt? || ParseNumber(v).value.VReal?
  {
  }

  // ---- get_parsed_value ----

  /**
   * The condition sees the parsed value; when it refuses, the error reports
   * the raw input with the condition's own reason, or the fixed message.
   */
  lemma ConditionRefuses(t: Variant, v: Value)
    requires t.HasCondition() && ParseVariant(t, v).Ok?
    requires t.condition(ParseVariant(t, v).value).Unsatisfied?
    ensures GetParsedValue(t, v)
         == Err(Refuse(t, v, t.condition(ParseVariant(t, v).value).reason.GetOr(CriterionMessage)))
  {
  }

  /** When the condition accepts, a non-`Number` variant returns the parsed value unchanged. */
  lemma ConditionAccepts(t: Variant, v: Value)
    requires t.HasCondition() && !t.Number? && ParseVariant(t, v).Ok?
    requires t.condition(ParseVariant(t, v).value).Satisfied?
    ensures GetParsedValue(t, v) == ParseVariant(t, v)
  {
  }

  /** A parse failure is reported before the condition is consulted. */
  lemma ParseFailureFirst(t: Variant, v: Value)
    requires ParseVariant(t, v).Err?
    ensures GetParsedValue(t, v) == ParseVariant(t, v)
  {
  }

  /** `Null`, `Boolean` and `Constant` have no condition: `get_parsed_value` is their parse hook. */
  lemma NoCondition(t: Variant, v: Value)
    requires t.Null? || t.Boolean? || t.Constant?
    ensures GetParsedValue(t, v) == ParseVariant(t, v)
  {
  }

  /**
   * `Number`'s bounds are inclusive and come after the condition: with the
   * condition satisfied, the parsed number (an int or a float) is returned
   * exactly when it is at least `min` and at most `max`, and the minimum is
   * checked first. `Compare(x, k)` is the sign of `x - k`.
   */
  lemma NumberBounds(lo: Option<int>, hi: Option<int>, strict: bool, c: Condition, v: Value)
    requires ParseNumber(v).Ok?
    requires c(ParseNumber(v).value).Satisfied?
    ensures var t := Number(lo, hi, strict, c);
      var x := ParseNumber(v).value;
      && (GetParsedValue(t, v).Ok? <==> (lo.None? || Compare(x, lo.value) >= 0) && (hi.None? || Compare(x, hi.value) <= 0))
      && (GetParsedValue(t, v).Ok? ==> GetParsedValue(t, v) == Ok(x))
      && (lo.Some? && Compare(x, lo.value) < 0 ==>
            GetParsedValue(t, v) == Err(Refuse(t, v, "is less than the minimum: " + IntToString(lo.value))))
      && ((lo.None? || Compare(x, lo.value) >= 0) && hi.Some? && Compare(x, hi.value) > 0 ==>
            GetParsedValue(t, v) == Err(Refuse(t, v, "is greater than the maximum: " + IntToString(hi.value))))
  {
  }

  /** A refusing condition wins over an out-of-range value. */
  lemma ConditionBeforeBounds(lo: Option<int>, hi: Option<int>, strict: bool, c: Condition, v: Value)
    requires ParseNumber(v).Ok? && c(ParseNumber(v).value).Unsatisfied?
    ensures GetParsedValue(Number(lo, hi, strict, c), v)
         == Err(Refuse(Number(lo, hi, strict, c), v, c(ParseNumber(v).value).reason.GetOr(CriterionMessage)))
  {
  }

  // ---- Date and Datetime ----

  /**
   * On a string of the `Date` pattern, `Date.parse` yields the date its
   * digits denote when that is a real calendar date, and otherwise reports
   * "is an invalid date".
   */
  lemma DateParse(c: Condition, s: string)
    requires IsDateText(s)
    ensures var y, m, d := DigitsValue(s[0..4]), DigitsValue(s[5..7]), DigitsValue(s[8..10]);
      && (IsCalendarDate(y, m, d) ==> ParseVariant(Date(c), VStr(s)) == Ok(VDate(y, m, d)))
      && (!IsCalendarDate(y, m, d) ==> ParseVariant(Date(c), VStr(s)) == Err(Refuse(Date(c), VStr(s), "is an invalid date")))
  {
  }

  /**
   * `Datetime.parse` yields a datetime exactly when one of its three formats
   * fits, the first that fits deciding, and otherwise reports "is an invalid datetime".
   */
  lemma DatetimeParse(c: Condition, s: string)
    ensures ParseVariant(Datetime(c), VStr(s)).Ok?
        <==> Strptime(s, WholeSeconds).Some? || Strptime(s, Fraction).Some? || Strptime(s, FractionZ).Some?
    ensures ParseVariant(Datetime(c), VStr(s)).Ok? ==>
      var d := ParseVariant(Datetime(c), VStr(s)).value;
      d.VDatetime? && IsCalendarDate(d.year, d.month, d.day) && IsClockTime(d.hour, d.minute, d.second)
    ensures ParseVariant(Datetime(c), VStr(s)).Err? ==>
      ParseVariant(Datetime(c), VStr(s)) == Err(Refuse(Datetime(c), VStr(s), "is an invalid datetime"))
  {
  }

  /**
   * The `Datetime` pattern is wider than the three formats: a bare `Z`, a
   * point without digits, or more than six fraction digits pass the gate
   * and then fail in the parse pass.
   */
  lemma PatternWiderThanFormats(c: Condition, s: string)
    requires IsDatetimeHead(s)
    requires s[19..] == "Z" || s[19..] == "." || s[19..] == ".Z" || (|s| > 26 && s[19] == '.' && AllDigits(s[20..]))
    ensures ValidateVariant(Datetime(c), VStr(s)) == Pass
    ensures ParseVariant(Datetime(c), VStr(s)) == Err(Refuse(Datetime(c), VStr(s), "is an invalid datetime"))
  {
    var tail := s[19..];
    assert tail[1..] == s[20..];
    assert FormatTail(WholeSeconds, tail).None?;
    assert FormatTail(Fraction, tail).None?;
    assert FormatTail(FractionZ, tail).None? by {
      if |tail| > 8 {
        assert IsDigit(tail[1..][|tail| - 2]);
      }
    }
  }

  /**
   * A `Z` after the fraction digits changes nothing: the datetime is naive,
   * and the text with the `Z` parses exactly when the text without it does,
   * to the same value.
   */
  lemma ZoneMarkerIgnored(c: Condition, s: string)
    requires IsDatetimeHead(s) && |s| >= 21 && s[19] == '.' && AllDigits(s[20..|s| - 1]) && s[|s| - 1] == 'Z'
    ensures var t := s[..|s| - 1];
      && (ParseVariant(Datetime(c), VStr(s)).Ok? <==> ParseVariant(Datetime(c), VStr(t)).Ok?)
      && (ParseVariant(Datetime(c), VStr(s)).Ok? ==>
            ParseVariant(Datetime(c), VStr(s)) == ParseVariant(Datetime(c), VStr(t)))
  {
    var t := s[..|s| - 1];
    assert t[0..4] == s[0..4] && t[5..7] == s[5..7] && t[8..10] == s[8..10];
    assert t[11..13] == s[11..13] && t[14..16] == s[14..16] && t[17..19] == s[17..19];
    var tail := s[19..];
    assert tail[1..|tail| - 1] == s[20..|s| - 1] && t[19..] == tail[..|tail| - 1];
    ZoneTail(tail, t[19..]);
    assert IsDatetimeHead(t);
    assert Strptime(s, FractionZ) == Strptime(t, Fraction);
  }

  /** The tail `.<digits>Z` fits only `.%fZ`, and reads as `.<digits>` does under `.%f`. */
  lemma ZoneTail(tail: string, tail': string)
    requires |tail| >= 2 && tail[0] == '.' && AllDigits(tail[1..|tail| - 1]) && tail[|tail| - 1] == 'Z'
    requires tail' == tail[..|tail| - 1]
    ensures FormatTail(WholeSeconds, tail).None? && FormatTail(Fraction, tail).None?
    ensures FormatTail(FractionZ, tail) == FormatTail(Fraction, tail')
  {
    assert tail[1..|tail| - 1] == tail'[1..];
    assert FormatTail(Fraction, tail).None? by {
      assert !IsDigit(tail[1..][|tail| - 2]);
    }
  }
}

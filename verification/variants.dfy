/**
 * The scalar variants (`String`, `RegexString`, `Number`, `Null`, `Date`,
 * `Datetime`, `Boolean`) and `Constant`: their `validate`, `parse` and
 * `get_parsed_value` hooks. Each failure names the variant's class as its
 * trace; the walker adds the path in front of it.
 */
module Variants {
  import opened Wrappers
  import opened Values
  import opened Errors
  import opened Formats

  /**
   * What a user condition does with the parsed value: return a true value,
   * or return a false value / raise (with its first argument when it has one).
   */
  datatype Verdict = Satisfied | Unsatisfied(reason: Option<string>)

  type Condition = Value -> Verdict

  /** The default condition `lambda x: True`. */
  const Unconditional: Condition := _ => Satisfied

  datatype Variant =
    | String(strict: bool, condition: Condition)
      /** `matches` is the compiled pattern's `match`, given as a predicate. */
    | RegexString(regex: string, matches: string -> bool, condition: Condition)
    | Number(min: Option<int>, max: Option<int>, strict: bool, condition: Condition)
    | Null
    | Date(condition: Condition)
    | Datetime(condition: Condition)
    | Boolean(strict: bool)
    | Constant(literal: Value)
  {
    /** Only the variants whose constructor calls `Type.__init__` carry a condition. */
    predicate HasCondition() {
      String? || RegexString? || Number? || Date? || Datetime?
    }
  }

  const DatePattern: string := "^\\d{4}-\\d{2}-\\d{2}$"
  const DatetimePattern: string := "^\\d{4}-\\d{2}-\\d{2}T\\d{2}:\\d{2}:\\d{2}(\\.\\d*)?Z?$"
  const CriterionMessage: string := "doesn't meet the validation criterion"

  /** `admissible_true` of `Boolean`. */
  const TrueTokens: seq<Value> := [VStr("yes"), VStr("True"), VStr("true"), VStr("t"), VStr("1"), VInt(1)]

  /** `admissible_false` of `Boolean`. */
  const FalseTokens: seq<Value> := [VStr("no"), VStr("False"), VStr("false"), VStr("f"), VStr("0"), VInt(0), VNull]

  /** The trace a variant's own failure carries: its class name (`Constant(<repr>)` for `Constant`). */
  function ClassName(t: Variant): string {
    match t
    case String(_, _) => "String"
    case RegexString(_, _, _) => "RegexString"
    case Number(_, _, _, _) => "Number"
    case Null => "Null"
    case Date(_) => "Date"
    case Datetime(_) => "Datetime"
    case Boolean(_) => "Boolean"
    case Constant(c) => "Constant(" + PyRepr(c) + ")"
  }

  /** `self.invalid(value, message)`. */
  function Refuse(t: Variant, v: Value, message: string): Failure {
    Rejection(v, message, [], ClassName(t))
  }

  /** `RegexString.validate` against a fixed pattern; a non-string never matches. */
  function MatchPattern(t: Variant, v: Value, pattern: string, matches: string -> bool): Outcome {
    if v.VStr? && matches(v.s) then Pass
    else Fail(Refuse(t, v, "doesn't match pattern " + pattern))
  }

  /** The `validate` hook: shape and format only, never the condition or bounds. */
  function ValidateVariant(t: Variant, v: Value): (r: Outcome)
    ensures r.Fail? ==> r.failure.Invalid? && r.failure.error.value == v
    ensures r.Fail? ==> r.failure.error.trace == Trace([], Named(ClassName(t)))
  {
    match t
    case String(strict, _) =>
      if strict && !v.VStr? then Fail(Refuse(t, v, "is not a string")) else Pass
    case RegexString(regex, matches, _) => MatchPattern(t, v, regex, matches)
    case Number(_, _, strict, _) =>
      if v.IsNumber() then Pass
      else if strict || !v.VStr? then Fail(Refuse(t, v, "is not a number"))
      else if !IsNumberLiteral(v.s) then Fail(Refuse(t, v, "is not a validly formatted number"))
      else Pass
    case Null =>
      if !v.VNull? then Fail(Refuse(t, v, "is not null")) else Pass
    case Date(_) => MatchPattern(t, v, DatePattern, IsDateText)
    case Datetime(_) => MatchPattern(t, v, DatetimePattern, IsDatetimeText)
    case Boolean(strict) =>
      if v.VBool? then Pass
      else if strict then Fail(Refuse(t, v, "is not boolean"))
      else if v !in TrueTokens && v !in FalseTokens then Fail(Refuse(t, v, "can't be interpreted as boolean"))
      else Pass
    case Constant(c) =>
      if v != c then Fail(Refuse(t, v, "is not equals to " + PyRepr(c))) else Pass
  }

  /** `Number.parse`: `float(value)`, then an int when the value is whole. */
  function ParseNumber(v: Value): (r: Result<Value>)
    ensures r.Ok? ==> r.value.VInt? || r.value.VReal?
    ensures v.IsNumber() ==> r.Ok?
    ensures v.VStr? ==> (r.Ok? <==> IsNumberLiteral(v.s))
    ensures r.Err? ==> r.failure.Crash?
  {
    match v
    case VBool(b) => Ok(VInt(if b then 1 else 0))
    case VInt(i) => Ok(VInt(i))
    case VReal(m, scale) => Ok(Normalize(m, scale))
    case VStr(s) =>
      if IsNumberLiteral(s) then
        var (m, scale) := LiteralValue(s);
        Ok(Normalize(m, scale))
      else Err(Crash("ValueError"))
    case _ => Err(Crash("TypeError"))
  }

  /** The `parse` hook. */
  function ParseVariant(t: Variant, v: Value): (r: Result<Value>)
    ensures r.Err? ==> t.Number? || t.Date? || t.Datetime?
    ensures r.Err? && r.failure.Invalid? ==> r.failure.error.value == v
    ensures r.Err? && r.failure.Invalid? ==> r.failure.error.trace == Trace([], Named(ClassName(t)))
  {
    match t
    case String(_, _) => Ok(VStr(PyStr(v)))
    case RegexString(_, _, _) => Ok(v)
    case Number(_, _, _, _) => ParseNumber(v)
    case Null => Ok(v)
    case Date(_) =>
      if !v.VStr? then Err(Crash("TypeError"))
      else
        (match StrptimeDate(v.s)
         case None => Err(Refuse(t, v, "is an invalid date"))
         case Some(d) => Ok(d))
    case Datetime(_) =>
      if !v.VStr? then Err(Crash("TypeError"))
      else
        (match StrptimeDatetime(v.s)
         case None => Err(Refuse(t, v, "is an invalid datetime"))
         case Some(d) => Ok(d))
    case Boolean(_) =>
      if v.VBool? then Ok(v)
      else if v in FalseTokens then Ok(VBool(false))
      else Ok(VBool(true))
    case Constant(_) => Ok(v)
  }

  /** The inclusive bounds `Number.get_parsed_value` checks after the condition. */
  function CheckBounds(t: Variant, v: Value, parsed: Value): (r: Result<Value>)
    requires t.Number? && (parsed.VInt? || parsed.VReal?)
    ensures r.Ok? <==> (t.min.None? || Compare(parsed, t.min.value) >= 0) && (t.max.None? || Compare(parsed, t.max.value) <= 0)
    ensures r.Ok? ==> r.value == parsed
    ensures r.Err? ==> r.failure.Invalid? && r.failure.error.value == v
    ensures r.Err? ==> r.failure.error.trace == Trace([], Named(ClassName(t)))
  {
    if t.min.Some? && Compare(parsed, t.min.value) < 0 then
      Err(Refuse(t, v, "is less than the minimum: " + IntToString(t.min.value)))
    else if t.max.Some? && Compare(parsed, t.max.value) > 0 then
      Err(Refuse(t, v, "is greater than the maximum: " + IntToString(t.max.value)))
    else Ok(parsed)
  }

  /**
   * `get_parsed_value`: parse, then run the condition (if the variant has one)
   * on the parsed value, then (for `Number`) the bounds. Errors report the raw input.
   */
  function GetParsedValue(t: Variant, v: Value): (r: Result<Value>)
    ensures r.Ok? ==> r == ParseVariant(t, v)
    ensures ParseVariant(t, v).Err? ==> r == ParseVariant(t, v)
    ensures r.Err? && r.failure.Invalid? ==> r.failure.error.value == v
    ensures r.Err? && r.failure.Invalid? ==> r.failure.error.trace == Trace([], Named(ClassName(t)))
  {
    match ParseVariant(t, v)
    case Err(f) => Err(f)
    case Ok(parsed) =>
      if t.HasCondition() && t.condition(parsed).Unsatisfied? then
        Err(Refuse(t, v, t.condition(parsed).reason.GetOr(CriterionMessage)))
      else if t.Number? then
        if parsed.VInt? || parsed.VReal? then CheckBounds(t, v, parsed) else Err(Crash("TypeError"))
      else Ok(parsed)
  }
}

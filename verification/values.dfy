/**
 * The runtime values the engine inspects and produces: the Python objects
 * `None`, `bool`, `int`, `float`/`Decimal`, `str`, `list`, `tuple`, `dict`,
 * `datetime.date` and `datetime.datetime`, together with the parts of
 * Python's `str()`/`repr()` the engine uses to render messages.
 */
module Values {
  import opened Wrappers

  datatype Value =
    | VNull
    | VBool(b: bool)
    | VInt(i: int)
      /** A number with a fractional part: `mantissa / 10^scale`. */
    | VReal(mantissa: int, scale: nat)
    | VStr(s: string)
    | VList(items: seq<Value>)
    | VTuple(items: seq<Value>)
      /** A dictionary with string keys, in insertion order. */
    | VDict(entries: seq<(string, Value)>)
    | VDate(year: int, month: int, day: int)
    | VDatetime(year: int, month: int, day: int, hour: int, minute: int, second: int, microsecond: int)
  {
    /** `isinstance(value, (int, float, decimal.Decimal))`; a Python bool is an int. */
    predicate IsNumber() {
      VBool? || VInt? || VReal?
    }

    /** `isinstance(value, (list, tuple))`. */
    predicate IsSequence() {
      VList? || VTuple?
    }
  }

  function Pow10(n: nat): (r: nat)
    ensures r >= 1
  {
    if n == 0 then 1 else 10 * Pow10(n - 1)
  }

  /** The keys of a sequence of key/value pairs, in order. */
  function Keys<T>(pairs: seq<(string, T)>): (ks: seq<string>)
    ensures |ks| == |pairs|
    ensures forall j :: 0 <= j < |pairs| ==> ks[j] == pairs[j].0
  {
    seq(|pairs|, j requires 0 <= j < |pairs| => pairs[j].0)
  }

  /** Position of the first pair whose key is `k` (`k in d` and `d[k]`). */
  function IndexOf<T>(pairs: seq<(string, T)>, k: string): (r: Option<nat>)
    ensures r.None? <==> k !in Keys(pairs)
    ensures r.Some? ==> r.value < |pairs| && pairs[r.value].0 == k
    ensures r.Some? ==> forall j :: 0 <= j < r.value ==> pairs[j].0 != k
  {
    if |pairs| == 0 then None
    else if pairs[0].0 == k then Some(0)
    else
      match IndexOf(pairs[1..], k)
      case None =>
        assert Keys(pairs) == [pairs[0].0] + Keys(pairs[1..]);
        None
      case Some(j) => Some(j + 1)
  }

  /** `d.get(k)`: the value stored under `k`, or `None` when `k` is absent. */
  function Get(entries: seq<(string, Value)>, k: string): Value {
    match IndexOf(entries, k)
    case None => VNull
    case Some(j) => entries[j].1
  }

  /**
   * `float(x)` followed by the `is_integer()` test of `Number.parse`, on the
   * exact decimal `m / 10^scale`: an integral number becomes an int, any other
   * number the canonical `VReal` (no trailing zero in the mantissa).
   */
  function Normalize(m: int, scale: nat): (r: Value)
    ensures r.VInt? || r.VReal?
    ensures r.VInt? ==> r.i * Pow10(scale) == m
    ensures r.VReal? ==> 0 < r.scale <= scale && r.mantissa % 10 != 0
    ensures r.VReal? ==> r.mantissa * Pow10(scale - r.scale) == m
    decreases scale
  {
    if scale == 0 then VInt(m)
    else if m % 10 == 0 then
      var r := Normalize(m / 10, scale - 1);
      assert r.VInt? ==> r.i * Pow10(scale) == 10 * (r.i * Pow10(scale - 1));
      assert r.VReal? ==> r.mantissa * Pow10(scale - r.scale) == 10 * (r.mantissa * Pow10(scale - 1 - r.scale)) by {
        if r.VReal? {
          assert Pow10(scale - r.scale) == 10 * Pow10(scale - 1 - r.scale);
        }
      }
      r
    else VReal(m, scale)
  }

  /**
   * A whole multiple of `10^scale` (scale > 0) is a multiple of ten, so a
   * canonical `VReal`, whose mantissa is not, never denotes a whole number.
   */
  lemma WholeIsMultipleOfTen(m: int, scale: nat)
    requires 0 < scale && m % Pow10(scale) == 0
    ensures m % 10 == 0
  {
    var p := Pow10(scale - 1);
    var q := m / Pow10(scale);
    assert m == q * Pow10(scale);
    assert Pow10(scale) == 10 * p;
    assert q * (10 * p) == 10 * (q * p);
    assert m == 10 * (q * p);
  }

  /** The sign of `x - k` for a number produced by `Number.parse`. */
  function Compare(x: Value, k: int): int
    requires x.VInt? || x.VReal?
  {
    var lhs := if x.VInt? then x.i else x.mantissa;
    var rhs := if x.VInt? then k else k * Pow10(x.scale);
    if lhs < rhs then -1 else if lhs == rhs then 0 else 1
  }

  function Digit(n: nat): char
    requires n < 10
  {
    ('0' as int + n) as char
  }

  /** Decimal text of a natural number, as `str(n)`. */
  function NatToString(n: nat): (r: string)
    ensures |r| > 0
    ensures forall j :: 0 <= j < |r| ==> '0' <= r[j] <= '9'
  {
    if n < 10 then [Digit(n)] else NatToString(n / 10) + [Digit(n % 10)]
  }

  function IntToString(i: int): string {
    if i < 0 then "-" + NatToString(-i) else NatToString(i)
  }

  /** `n` written with at least `width` digits, zero-padded on the left. */
  function PadNat(n: nat, width: nat): string {
    var t := NatToString(n);
    if |t| >= width then t else seq(width - |t|, _ => '0') + t
  }

  function Join(parts: seq<string>, sep: string): string {
    if |parts| == 0 then ""
    else if |parts| == 1 then parts[0]
    else parts[0] + sep + Join(parts[1..], sep)
  }

  /** Python's rendering of a fractional number with its exact digits. */
  function DecimalText(m: int, scale: nat): string {
    var a: nat := if m < 0 then -m else m;
    var sign := if m < 0 then "-" else "";
    if scale == 0 then sign + NatToString(a) + ".0"
    else
      var p := Pow10(scale);
      sign + NatToString(Quotient(a, p)) + "." + PadNat(a - Quotient(a, p) * p, scale)
  }

  /** Integer division of naturals, with the bound the rendering needs. */
  function Quotient(a: nat, p: nat): (q: nat)
    requires p > 0
    ensures q * p <= a
  {
    if a < p then 0 else 1 + Quotient(a - p, p)
  }

  /** `repr(v)`. */
  function PyRepr(v: Value): string {
    match v
    case VNull => "None"
    case VBool(b) => if b then "True" else "False"
    case VInt(i) => IntToString(i)
    case VReal(m, scale) => DecimalText(m, scale)
    case VStr(s) => "'" + s + "'"
    case VList(items) =>
      "[" + Join(seq(|items|, j requires 0 <= j < |items| => PyRepr(items[j])), ", ") + "]"
    case VTuple(items) =>
      if |items| == 1 then "(" + PyRepr(items[0]) + ",)"
      else "(" + Join(seq(|items|, j requires 0 <= j < |items| => PyRepr(items[j])), ", ") + ")"
    case VDict(entries) =>
      "{" + Join(seq(|entries|, j requires 0 <= j < |entries| =>
                     "'" + entries[j].0 + "': " + PyRepr(entries[j].1)), ", ") + "}"
    case VDate(y, mo, d) =>
      "datetime.date(" + Join([IntToString(y), IntToString(mo), IntToString(d)], ", ") + ")"
    case VDatetime(y, mo, d, h, mi, sec, us) =>
      var fields := [IntToString(y), IntToString(mo), IntToString(d), IntToString(h), IntToString(mi)];
      var tail := if us != 0 then [IntToString(sec), IntToString(us)]
                  else if sec != 0 then [IntToString(sec)] else [];
      "datetime.datetime(" + Join(fields + tail, ", ") + ")"
  }

  function DateText(y: int, mo: int, d: int): string {
    var two := (n: int) => if n < 0 then IntToString(n) else PadNat(n, 2);
    (if y < 0 then IntToString(y) else PadNat(y, 4)) + "-" + two(mo) + "-" + two(d)
  }

  /** `str(v)`: the text itself for a string, the ISO form for dates, `repr` otherwise. */
  function PyStr(v: Value): (r: string)
    ensures v.VStr? ==> r == v.s
  {
    match v
    case VStr(s) => s
    case VDate(y, mo, d) => DateText(y, mo, d)
    case VDatetime(y, mo, d, h, mi, sec, us) =>
      var two := (n: int) => if n < 0 then IntToString(n) else PadNat(n, 2);
      DateText(y, mo, d) + " " + two(h) + ":" + two(mi) + ":" + two(sec)
      + (if us > 0 then "." + PadNat(us, 6) else "")
    case _ => PyRepr(v)
  }
}

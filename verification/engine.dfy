/**
 * The loops of the source, kept as loops: `_validate` walks the schema's keys,
 * the input's entries, the list's elements and the tuple's slots with `for`
 * loops that stop at the first error, and `Any.parse` walks its alternatives
 * collecting the errors. Each method is proved to compute the function of
 * `Walker` that specifies it.
 */
module Engine {
  import opened Wrappers
  import opened Values
  import opened Errors
  import opened Variants
  import opened Walker

  /** `_validate(variant, schema, current_trace)`. */
  method ValidateTree(v: Value, s: Schema, prefix: seq<Segment>) returns (r: Outcome)
    ensures r == Validate(v, s, prefix)
    decreases s, 1
  {
    match s {
      case Scalar(t) =>
        r := PrefixOutcome(ValidateVariant(t, v), prefix);
      case Optional(inner) =>
        if v.VNull? {
          return Pass;
        }
        var o := ValidateTree(v, inner, []);
        r := if o.Pass? then Pass else Fail(Prefixed(WrapOptional(o.failure), prefix));
      case Any(_) =>
        r := Pass;
      case Dict(_) =>
        r := ValidateObject(v, s, prefix);
      case List(_) =>
        r := ValidateList(v, s, prefix);
      case Tuple(_) =>
        r := ValidateTuple(v, s, prefix);
    }
  }

  /** The `dict` branch: the schema's keys first, then the input's entries. */
  method ValidateObject(v: Value, s: Schema, prefix: seq<Segment>) returns (r: Outcome)
    requires s.Dict?
    ensures r == Validate(v, s, prefix)
    decreases s, 0
  {
    var fields := s.fields;
    if !v.VDict? {
      return Fail(Rejection(v, "is not an object", prefix, "Object"));
    }
    var j := 0;
    while j < |fields|
      invariant 0 <= j <= |fields|
      invariant forall q :: 0 <= q < j ==> !IsMissing(fields[q], v.entries)
    {
      if IsMissing(fields[j], v.entries) {
        assert MissingKey(fields, v.entries) == Some(j);
        return Fail(Rejection(v, "doesn't have key \"" + fields[j].0 + "\"", prefix, "Object"));
      }
      j := j + 1;
    }
    assert v.entries[0..] == v.entries;
    var n := 0;
    while n < |v.entries|
      invariant 0 <= n <= |v.entries|
      invariant Validate(v, s, prefix) == ValidateEntries(v.entries[n..], s, prefix)
    {
      var k := v.entries[n].0;
      assert v.entries[n..][0] == v.entries[n] && v.entries[n..][1..] == v.entries[n + 1..];
      match IndexOf(fields, k) {
        case Some(q) =>
          var o := ValidateTree(v.entries[n].1, fields[q].1, prefix + [ObjectKey(k)]);
          if o.Fail? {
            return o;
          }
        case None =>
      }
      n := n + 1;
    }
    r := Pass;
  }

  /** The `list` branch: every element against the one element schema, in order. */
  method ValidateList(v: Value, s: Schema, prefix: seq<Segment>) returns (r: Outcome)
    requires s.List?
    ensures r == Validate(v, s, prefix)
    decreases s, 0
  {
    var elements := s.elements;
    if |elements| > 1 {
      return Fail(Crash("TypeError"));
    }
    if !v.IsSequence() {
      return Fail(Rejection(v, "is not a list or tuple", prefix, "List"));
    }
    if elements == [] {
      return Pass;
    }
    var i := 0;
    while i < |v.items|
      invariant 0 <= i <= |v.items|
      invariant Validate(v, s, prefix) == ValidateItems(v.items, s, prefix, i)
    {
      var o := ValidateTree(v.items[i], elements[0], prefix + [ListIndex(i)]);
      if o.Fail? {
        return o;
      }
      i := i + 1;
    }
    r := Pass;
  }

  /** The `tuple` branch: the arity, then every position against its own slot. */
  method ValidateTuple(v: Value, s: Schema, prefix: seq<Segment>) returns (r: Outcome)
    requires s.Tuple?
    ensures r == Validate(v, s, prefix)
    decreases s, 0
  {
    var slots := s.slots;
    if !v.IsSequence() {
      return Fail(Rejection(v, "is not a list or tuple", prefix, "Tuple"));
    }
    if |slots| != |v.items| {
      return Fail(Rejection(v, TupleArityMessage(|v.items|, |slots|), prefix, "Tuple"));
    }
    var i := 0;
    while i < |slots|
      invariant 0 <= i <= |slots|
      invariant Validate(v, s, prefix) == ValidateSlots(v.items, s, prefix, i)
    {
      var o := ValidateTree(v.items[i], slots[i], prefix + [TupleIndex(i)]);
      if o.Fail? {
        return o;
      }
      i := i + 1;
    }
    r := Pass;
  }

  function TracesOf(errors: seq<ValidationError>): (ts: seq<Trace>)
    ensures |ts| == |errors|
    ensures forall j :: 0 <= j < |errors| ==> ts[j] == errors[j].trace
  {
    seq(|errors|, j requires 0 <= j < |errors| => errors[j].trace)
  }

  /**
   * `Any.parse` reached through `prefix`: validate, then parse, each
   * alternative in turn; the first that gets through both wins, and the
   * errors of the others are kept for the combined error.
   */
  method ResolveAny(v: Value, alternatives: seq<Schema>, prefix: seq<Segment>) returns (r: Result<Value>)
    ensures r == Parse(v, Any(alternatives), prefix)
  {
    ghost var s := Any(alternatives);
    var errors: seq<ValidationError> := [];
    var i := 0;
    while i < |alternatives|
      invariant 0 <= i <= |alternatives|
      invariant Parse(v, s, prefix) == ParseAny(v, s, prefix, i, TracesOf(errors))
    {
      var checked := ValidateTree(v, alternatives[i], []);
      var attempt := if checked.Pass? then Parse(v, alternatives[i], []) else Err(checked.failure);
      assert attempt == Attempt(v, s, i);
      match attempt {
        case Ok(x) =>
          assert ParseAny(v, s, prefix, i, TracesOf(errors)) == Ok(x);
          return Ok(x);
        case Err(Crash(c)) =>
          assert ParseAny(v, s, prefix, i, TracesOf(errors)) == Err(Crash(c));
          return Err(Crash(c));
        case Err(Invalid(e)) =>
          assert ParseAny(v, s, prefix, i, TracesOf(errors)) == ParseAny(v, s, prefix, i + 1, TracesOf(errors) + [e.trace]);
          assert TracesOf(errors + [e]) == TracesOf(errors) + [e.trace];
          errors := errors + [e];
      }
      i := i + 1;
    }
    r := Err(Invalid(ValidationError(v, AnyMessage, Trace(prefix, InAny(TracesOf(errors))))));
  }
}

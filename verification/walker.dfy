/**
 * The structural walker: schemas, the validation pass `_validate`, the parse
 * pass `_parse`, the two combinators that recurse (`Optional`, `Any`) and the
 * entry point `clean`. The `prefix` argument is the source's `current_trace`.
 */
module Walker {
  import opened Wrappers
  import opened Values
  import opened Errors
  import opened Variants

  datatype Schema =
    | Scalar(variant: Variant)
    | Optional(inner: Schema)
      /** `Any(first, *others)`: alternatives tried in this order. */
    | Any(alternatives: seq<Schema>)
      /** A `dict` schema: field names and their schemas, in the dict's order. */
    | Dict(fields: seq<(string, Schema)>)
      /** A `list` schema: zero or one element schema (more is a configuration error). */
    | List(elements: seq<Schema>)
      /** A `tuple` schema: one schema per position. */
    | Tuple(slots: seq<Schema>)

  const AnyMessage: string := "doesn't meet any allowed criterion"

  function PrefixOutcome(o: Outcome, prefix: seq<Segment>): Outcome {
    match o
    case Pass => Pass
    case Fail(f) => Fail(Prefixed(f, prefix))
  }

  function PrefixResult<T>(r: Result<T>, prefix: seq<Segment>): Result<T> {
    match r
    case Ok(x) => Ok(x)
    case Err(f) => Err(Prefixed(f, prefix))
  }

  /** `Optional.invalid(e.value, e.message, e.trace)`: the trace becomes `Optional(<trace>)`. */
  function WrapOptional(f: Failure): (r: Failure)
    ensures r.Crash? <==> f.Crash?
    ensures r.Crash? ==> r == f
    ensures r.Invalid? ==> r.error.value == f.error.value && r.error.message == f.error.message
    ensures r.Invalid? ==> r.error.trace == Trace([], InOptional(f.error.trace))
  {
    match f
    case Invalid(e) => Invalid(ValidationError(e.value, e.message, Trace([], InOptional(e.trace))))
    case Crash(_) => f
  }

  /** A field the input must have: its sub-schema is not an `Optional`. */
  predicate IsMissing(field: (string, Schema), entries: seq<(string, Value)>) {
    field.0 !in Keys(entries) && !field.1.Optional?
  }

  /** The first schema field, in the schema's order, that the input lacks and that is required. */
  function MissingKey(fields: seq<(string, Schema)>, entries: seq<(string, Value)>): (r: Option<nat>)
    ensures r.None? <==> forall j :: 0 <= j < |fields| ==> !IsMissing(fields[j], entries)
    ensures r.Some? ==> r.value < |fields| && IsMissing(fields[r.value], entries)
    ensures r.Some? ==> forall j :: 0 <= j < r.value ==> !IsMissing(fields[j], entries)
  {
    if |fields| == 0 then None
    else if IsMissing(fields[0], entries) then Some(0)
    else
      match MissingKey(fields[1..], entries)
      case None =>
        assert forall j :: 1 <= j < |fields| ==> fields[j] == fields[1..][j - 1];
        None
      case Some(j) =>
        assert forall q :: 1 <= q < j + 1 ==> fields[q] == fields[1..][q - 1];
        Some(j + 1)
  }

  /** `_validate`: fail-fast and depth-first; it builds nothing. */
  function Validate(v: Value, s: Schema, prefix: seq<Segment>): Outcome
    decreases s, 1, 0
  {
    match s
    case Scalar(t) => PrefixOutcome(ValidateVariant(t, v), prefix)
    case Optional(inner) =>
      if v.VNull? then Pass
      else
        (match Validate(v, inner, [])
         case Pass => Pass
         case Fail(f) => Fail(Prefixed(WrapOptional(f), prefix)))
    case Any(_) => Pass
    case Dict(fields) =>
      if !v.VDict? then Fail(Rejection(v, "is not an object", prefix, "Object"))
      else
        (match MissingKey(fields, v.entries)
         case Some(j) => Fail(Rejection(v, "doesn't have key \"" + fields[j].0 + "\"", prefix, "Object"))
         case None => ValidateEntries(v.entries, s, prefix))
    case List(elements) =>
      if |elements| > 1 then Fail(Crash("TypeError"))
      else if !v.IsSequence() then Fail(Rejection(v, "is not a list or tuple", prefix, "List"))
      else if elements == [] then Pass
      else ValidateItems(v.items, s, prefix, 0)
    case Tuple(slots) =>
      if !v.IsSequence() then Fail(Rejection(v, "is not a list or tuple", prefix, "Tuple"))
      else if |slots| != |v.items| then
        Fail(Rejection(v, TupleArityMessage(|v.items|, |slots|), prefix, "Tuple"))
      else ValidateSlots(v.items, s, prefix, 0)
  }

  function TupleArityMessage(given: nat, required: nat): string {
    "has too " + (if given < required then "few" else "many") + " elements (it requires " + NatToString(required) + ")"
  }

  /** The input's entries, in the input's order; keys the schema lacks are skipped. */
  function ValidateEntries(entries: seq<(string, Value)>, s: Schema, prefix: seq<Segment>): Outcome
    requires s.Dict?
    decreases s, 0, |entries|
  {
    if entries == [] then Pass
    else
      match ValidateEntry(entries[0], s, prefix)
      case Pass => ValidateEntries(entries[1..], s, prefix)
      case Fail(f) => Fail(f)
  }

  /** One entry of the input: checked against the schema's field of the same key, if there is one. */
  function ValidateEntry(entry: (string, Value), s: Schema, prefix: seq<Segment>): Outcome
    requires s.Dict?
    decreases s, 0, 0
  {
    match IndexOf(s.fields, entry.0)
    case None => Pass
    case Some(j) => Validate(entry.1, s.fields[j].1, prefix + [ObjectKey(entry.0)])
  }

  /** Every element, from index `i` on, against the list's one element schema. */
  function ValidateItems(items: seq<Value>, s: Schema, prefix: seq<Segment>, i: nat): Outcome
    requires s.List? && |s.elements| == 1 && i <= |items|
    decreases s, 0, |items| - i
  {
    if i == |items| then Pass
    else
      match ValidateElement(items, s, prefix, i)
      case Pass => ValidateItems(items, s, prefix, i + 1)
      case Fail(f) => Fail(f)
  }

  /** Element `i` against the list's element schema, at `List(index:i)`. */
  function ValidateElement(items: seq<Value>, s: Schema, prefix: seq<Segment>, i: nat): Outcome
    requires s.List? && |s.elements| == 1 && i < |items|
    decreases s, 0, 0
  {
    Validate(items[i], s.elements[0], prefix + [ListIndex(i)])
  }

  /** Every position, from `i` on, against its own slot schema. */
  function ValidateSlots(items: seq<Value>, s: Schema, prefix: seq<Segment>, i: nat): Outcome
    requires s.Tuple? && |items| == |s.slots| && i <= |items|
    decreases s, 0, |items| - i
  {
    if i == |items| then Pass
    else
      match ValidateSlot(items, s, prefix, i)
      case Pass => ValidateSlots(items, s, prefix, i + 1)
      case Fail(f) => Fail(f)
  }

  /** Position `i` against slot `i`, at `Tuple(index:i)`. */
  function ValidateSlot(items: seq<Value>, s: Schema, prefix: seq<Segment>, i: nat): Outcome
    requires s.Tuple? && |items| == |s.slots| && i < |items|
    decreases s, 0, 0
  {
    Validate(items[i], s.slots[i], prefix + [TupleIndex(i)])
  }

  /** What `for e in value` iterates over; `None` when Python would raise `TypeError`. */
  function Iterate(v: Value): (r: Option<seq<Value>>)
    ensures r.Some? <==> v.IsSequence() || v.VStr? || v.VDict?
    ensures v.IsSequence() ==> r == Some(v.items)
    ensures v.VStr? ==> |r.value| == |v.s| && forall j :: 0 <= j < |v.s| ==> r.value[j] == VStr([v.s[j]])
    ensures v.VDict? ==> |r.value| == |v.entries| && forall j :: 0 <= j < |v.entries| ==> r.value[j] == VStr(v.entries[j].0)
  {
    match v
    case VList(items) => Some(items)
    case VTuple(items) => Some(items)
    case VStr(s) => Some(seq(|s|, j requires 0 <= j < |s| => VStr([s[j]])))
    case VDict(entries) => Some(seq(|entries|, j requires 0 <= j < |entries| => VStr(entries[j].0)))
    case _ => None
  }

  /**
   * `_parse`: builds the coerced value, assuming the validation pass has
   * accepted `v`. It re-checks nothing the validation pass checked: a dict
   * schema reads `v.get(key)` for each of its keys (none for `{}`), a list
   * or tuple schema iterates over `v`.
   */
  function Parse(v: Value, s: Schema, prefix: seq<Segment>): Result<Value>
    decreases s, 1, 0
  {
    match s
    case Scalar(t) => PrefixResult(GetParsedValue(t, v), prefix)
    case Optional(inner) =>
      if v.VNull? then Ok(VNull)
      else
        (match Parse(v, inner, [])
         case Ok(x) => Ok(x)
         case Err(f) => Err(Prefixed(WrapOptional(f), prefix)))
    case Any(_) => ParseAny(v, s, prefix, 0, [])
    case Dict(fields) =>
      if fields == [] then Ok(VDict([]))
      else if !v.VDict? then Err(Crash("AttributeError"))
      else
        (match ParseFields(v.entries, s, prefix, 0)
         case Ok(out) => Ok(VDict(out))
         case Err(f) => Err(f))
    case List(elements) =>
      if elements == [] then Ok(VList([]))
      else
        (match Iterate(v)
         case None => Err(Crash("TypeError"))
         case Some(items) =>
           (match ParseItems(items, s, prefix, 0)
            case Ok(out) => Ok(VList(out))
            case Err(f) => Err(f)))
    case Tuple(slots) =>
      match Iterate(v)
      case None => Err(Crash("TypeError"))
      case Some(items) =>
        match ParseSlots(items, s, prefix, 0)
        case Ok(out) => Ok(VTuple(out))
        case Err(f) => Err(f)
  }

  /** The schema's fields from `i` on, each parsed from `value.get(key)`, in the schema's order. */
  function ParseFields(entries: seq<(string, Value)>, s: Schema, prefix: seq<Segment>, i: nat)
    : (r: Result<seq<(string, Value)>>)
    requires s.Dict? && i <= |s.fields|
    ensures r.Ok? ==> |r.value| == |s.fields| - i
    ensures r.Ok? ==> forall j :: 0 <= j < |r.value| ==> r.value[j].0 == s.fields[i + j].0
    decreases s, 0, |s.fields| - i
  {
    if i == |s.fields| then Ok([])
    else
      match ParseField(entries, s, prefix, i)
      case Err(f) => Err(f)
      case Ok(x) =>
        match ParseFields(entries, s, prefix, i + 1)
        case Err(f) => Err(f)
        case Ok(rest) => Ok([(s.fields[i].0, x)] + rest)
  }

  /** Field `i` of the schema, parsed from `value.get(key)` at `Object(key:…)`. */
  function ParseField(entries: seq<(string, Value)>, s: Schema, prefix: seq<Segment>, i: nat): Result<Value>
    requires s.Dict? && i < |s.fields|
    decreases s, 0, 0
  {
    Parse(Get(entries, s.fields[i].0), s.fields[i].1, prefix + [ObjectKey(s.fields[i].0)])
  }

  /** The elements from `i` on, each against the list schema's first element schema. */
  function ParseItems(items: seq<Value>, s: Schema, prefix: seq<Segment>, i: nat): (r: Result<seq<Value>>)
    requires s.List? && |s.elements| >= 1 && i <= |items|
    ensures r.Ok? ==> |r.value| == |items| - i
    decreases s, 0, |items| - i
  {
    if i == |items| then Ok([])
    else
      match ParseElement(items, s, prefix, i)
      case Err(f) => Err(f)
      case Ok(x) =>
        match ParseItems(items, s, prefix, i + 1)
        case Err(f) => Err(f)
        case Ok(rest) => Ok([x] + rest)
  }

  /** Element `i` parsed with the list schema's first element schema, at `List(index:i)`. */
  function ParseElement(items: seq<Value>, s: Schema, prefix: seq<Segment>, i: nat): Result<Value>
    requires s.List? && |s.elements| >= 1 && i < |items|
    decreases s, 0, 0
  {
    Parse(items[i], s.elements[0], prefix + [ListIndex(i)])
  }

  /** The elements from `i` on, each against the slot of the same index (`IndexError` past the last). */
  function ParseSlots(items: seq<Value>, s: Schema, prefix: seq<Segment>, i: nat): (r: Result<seq<Value>>)
    requires s.Tuple? && i <= |items|
    ensures r.Ok? ==> |r.value| == |items| - i
    ensures r.Ok? && i <= |s.slots| ==> |items| <= |s.slots|
    decreases s, 0, |items| - i
  {
    if i == |items| then Ok([])
    else if i >= |s.slots| then Err(Crash("IndexError"))
    else
      match ParseSlot(items, s, prefix, i)
      case Err(f) => Err(f)
      case Ok(x) =>
        match ParseSlots(items, s, prefix, i + 1)
        case Err(f) => Err(f)
        case Ok(rest) => Ok([x] + rest)
  }

  /** Element `i` parsed with slot `i`, at `Tuple(index:i)`. */
  function ParseSlot(items: seq<Value>, s: Schema, prefix: seq<Segment>, i: nat): Result<Value>
    requires s.Tuple? && i < |items| && i < |s.slots|
    decreases s, 0, 0
  {
    Parse(items[i], s.slots[i], prefix + [TupleIndex(i)])
  }

  /**
   * `Any.parse` from alternative `i` on, with the traces of the alternatives
   * that failed so far: the first alternative that validates and parses wins.
   */
  function ParseAny(v: Value, s: Schema, prefix: seq<Segment>, i: nat, traces: seq<Trace>): Result<Value>
    requires s.Any? && i <= |s.alternatives|
    decreases s, 0, |s.alternatives| - i
  {
    if i == |s.alternatives| then
      Err(Invalid(ValidationError(v, AnyMessage, Trace(prefix, InAny(traces)))))
    else
      match Attempt(v, s, i)
      case Ok(x) => Ok(x)
      case Err(Invalid(e)) => ParseAny(v, s, prefix, i + 1, traces + [e.trace])
      case Err(Crash(c)) => Err(Crash(c))
  }

  /** One turn of `Any.parse`'s loop: `_validate`, then `_parse`, against alternative `i`. */
  function Attempt(v: Value, s: Schema, i: nat): Result<Value>
    requires s.Any? && i < |s.alternatives|
    decreases s, 0, 0
  {
    Clean(v, s.alternatives[i])
  }

  /** `clean(schema)(v)`: the validation pass over the whole input, then the parse pass. */
  function Clean(v: Value, s: Schema): Result<Value>
    decreases s, 2, 0
  {
    match Validate(v, s, [])
    case Fail(f) => Err(f)
    case Pass => Parse(v, s, [])
  }
}

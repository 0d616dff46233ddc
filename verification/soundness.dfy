/**
 * The two passes fit together. For a well-formed schema the validation pass
 * raises nothing but `ValidationError`, the parse pass of an input the
 * validation pass accepted raises nothing else either, and whatever `clean`
 * returns has the shape the schema describes. The only errors left after
 * validation are the ones the parse hooks and conditions report: an
 * impossible calendar date, a refusing condition, a `Number` out of bounds,
 * or an `Any` whose alternatives all refuse.
 */
module Soundness {
  import opened Wrappers
  import opened Values
  import opened Errors
  import opened Formats
  import opened Variants
  import opened Walker
  import opened MappingRules
  import opened SequenceRules

  predicate DistinctKeys<T>(pairs: seq<(string, T)>) {
    forall i, j :: 0 <= i < j < |pairs| ==> pairs[i].0 != pairs[j].0
  }

  /**
   * The schemas `clean` is written for: a list schema holds at most one
   * element schema, a dict schema (a Python dict) names each key once, and
   * an `Any` has at least one alternative (`Any(first, *others)`).
   */
  predicate WellFormed(s: Schema) {
    match s
    case Scalar(_) => true
    case Optional(inner) => WellFormed(inner)
    case Any(alternatives) => |alternatives| >= 1 && forall j :: 0 <= j < |alternatives| ==> WellFormed(alternatives[j])
    case Dict(fields) => DistinctKeys(fields) && forall j :: 0 <= j < |fields| ==> WellFormed(fields[j].1)
    case List(elements) => |elements| <= 1 && forall j :: 0 <= j < |elements| ==> WellFormed(elements[j])
    case Tuple(slots) => forall j :: 0 <= j < |slots| ==> WellFormed(slots[j])
  }

  /** An exception other than `ValidationError` escaped. */
  predicate Raised(o: Outcome) {
    o.Fail? && o.failure.Crash?
  }

  predicate NoCrash<T>(r: Result<T>) {
    r.Ok? || r.failure.Invalid?
  }

  /** The value a variant's `get_parsed_value` returns. */
  predicate ParsedAs(out: Value, t: Variant) {
    match t
    case String(_, _) => out.VStr?
    case RegexString(_, matches, _) => out.VStr? && matches(out.s)
    case Number(lo, hi, _, _) =>
      && (out.VInt? || out.VReal?)
      && (lo.Some? ==> Compare(out, lo.value) >= 0)
      && (hi.Some? ==> Compare(out, hi.value) <= 0)
    case Null => out == VNull
    case Date(_) => out.VDate? && IsCalendarDate(out.year, out.month, out.day)
    case Datetime(_) =>
      out.VDatetime? && IsCalendarDate(out.year, out.month, out.day) && IsClockTime(out.hour, out.minute, out.second)
    case Boolean(_) => out.VBool?
    case Constant(c) => out == c
  }

  /** The value `clean(s)` returns has the shape `s` describes. */
  predicate Shaped(out: Value, s: Schema) {
    match s
    case Scalar(t) => ParsedAs(out, t)
    case Optional(inner) => out == VNull || Shaped(out, inner)
    case Any(alternatives) => exists j :: 0 <= j < |alternatives| && Shaped(out, alternatives[j])
    case Dict(fields) =>
      && out.VDict? && |out.entries| == |fields|
      && forall j :: 0 <= j < |fields| ==> out.entries[j].0 == fields[j].0 && Shaped(out.entries[j].1, fields[j].1)
    case List(elements) =>
      && out.VList?
      && (elements == [] ==> out.items == [])
      && forall q :: 0 <= q < |out.items| && elements != [] ==> Shaped(out.items[q], elements[0])
    case Tuple(slots) =>
      && out.VTuple? && |out.items| == |slots|
      && forall q :: 0 <= q < |slots| ==> Shaped(out.items[q], slots[q])
  }

  // ---- the validation pass ----

  /** On a well-formed schema the validation pass raises only `ValidationError`. */
  lemma {:induction false} ValidateNeverCrashes(v: Value, s: Schema, p: seq<Segment>)
    requires WellFormed(s)
    ensures !Raised(Validate(v, s, p))
    decreases s, 2, 0
  {
    match s
    case Scalar(t) => ScalarNeverCrashes(v, t, p);
    case Optional(inner) =>
      if !v.VNull? {
        ValidateNeverCrashes(v, inner, []);
      }
    case Any(_) =>
    case Dict(fields) => DictNeverCrashes(v, s, p);
    case List(elements) => ListNeverCrashes(v, s, p);
    case Tuple(slots) => TupleNeverCrashes(v, s, p);
  }

  lemma ScalarNeverCrashes(v: Value, t: Variant, p: seq<Segment>)
    ensures !Raised(Validate(v, Scalar(t), p))
  {
    assert Validate(v, Scalar(t), p) == PrefixOutcome(ValidateVariant(t, v), p);
    assert !Raised(ValidateVariant(t, v));
  }

  lemma {:induction false} DictNeverCrashes(v: Value, s: Schema, p: seq<Segment>)
    requires s.Dict? && WellFormed(s)
    ensures !Raised(Validate(v, s, p))
    decreases s, 1, 0
  {
    if v.VDict? && MissingKey(s.fields, v.entries).None? {
      assert Validate(v, s, p) == ValidateEntries(v.entries, s, p);
      EntriesNeverCrash(v.entries, s, p);
    }
  }

  lemma {:induction false} ListNeverCrashes(v: Value, s: Schema, p: seq<Segment>)
    requires s.List? && WellFormed(s)
    ensures !Raised(Validate(v, s, p))
    decreases s, 1, 0
  {
    if v.IsSequence() && s.elements != [] {
      assert Validate(v, s, p) == ValidateItems(v.items, s, p, 0);
      ItemsNeverCrash(v.items, s, p, 0);
    }
  }

  lemma {:induction false} TupleNeverCrashes(v: Value, s: Schema, p: seq<Segment>)
    requires s.Tuple? && WellFormed(s)
    ensures !Raised(Validate(v, s, p))
    decreases s, 1, 0
  {
    if v.IsSequence() && |s.slots| == |v.items| {
      assert Validate(v, s, p) == ValidateSlots(v.items, s, p, 0);
      SlotsNeverCrash(v.items, s, p, 0);
    }
  }

  lemma {:induction false} EntriesNeverCrash(entries: seq<(string, Value)>, s: Schema, p: seq<Segment>)
    requires s.Dict? && WellFormed(s)
    ensures !Raised(ValidateEntries(entries, s, p))
    decreases s, 0, |entries|
  {
    if entries != [] {
      match IndexOf(s.fields, entries[0].0)
      case None =>
        EntriesNeverCrash(entries[1..], s, p);
      case Some(j) =>
        ValidateNeverCrashes(entries[0].1, s.fields[j].1, p + [ObjectKey(entries[0].0)]);
        EntriesNeverCrash(entries[1..], s, p);
    }
  }

  lemma {:induction false} ItemsNeverCrash(items: seq<Value>, s: Schema, p: seq<Segment>, i: nat)
    requires s.List? && |s.elements| == 1 && WellFormed(s) && i <= |items|
    ensures !Raised(ValidateItems(items, s, p, i))
    decreases s, 0, |items| - i
  {
    if i < |items| {
      ValidateNeverCrashes(items[i], s.elements[0], p + [ListIndex(i)]);
      ItemsNeverCrash(items, s, p, i + 1);
    }
  }

  lemma {:induction false} SlotsNeverCrash(items: seq<Value>, s: Schema, p: seq<Segment>, i: nat)
    requires s.Tuple? && |items| == |s.slots| && WellFormed(s) && i <= |items|
    ensures !Raised(ValidateSlots(items, s, p, i))
    decreases s, 0, |items| - i
  {
    if i < |items| {
      ValidateNeverCrashes(items[i], s.slots[i], p + [TupleIndex(i)]);
      SlotsNeverCrash(items, s, p, i + 1);
    }
  }

  // ---- the parse pass after a successful validation pass ----

  /**
   * A variant's parse hook, condition and bounds raise only `ValidationError`
   * on a value its validate hook accepted, and what they return is of the
   * variant's kind (within `Number`'s bounds).
   */
  lemma VariantParseAfterValidate(t: Variant, v: Value)
    requires ValidateVariant(t, v).Pass?
    ensures NoCrash(GetParsedValue(t, v))
    ensures GetParsedValue(t, v).Ok? ==> ParsedAs(GetParsedValue(t, v).value, t)
  {
    match t
    case Number(lo, hi, strict, c) => NumberAfterValidate(lo, hi, strict, c, v);
    case Date(c) => DateAfterValidate(c, v);
    case Datetime(c) => DatetimeAfterValidate(c, v);
    case _ =>
  }

  lemma NumberAfterValidate(lo: Option<int>, hi: Option<int>, strict: bool, c: Condition, v: Value)
    requires ValidateVariant(Number(lo, hi, strict, c), v).Pass?
    ensures NoCrash(GetParsedValue(Number(lo, hi, strict, c), v))
    ensures GetParsedValue(Number(lo, hi, strict, c), v).Ok? ==>
      ParsedAs(GetParsedValue(Number(lo, hi, strict, c), v).value, Number(lo, hi, strict, c))
  {
    var t := Number(lo, hi, strict, c);
    var r := ParseNumber(v);
    assert r.Ok? && (r.value.VInt? || r.value.VReal?);
    assert ParseVariant(t, v) == r;
    if c(r.value).Satisfied? {
      assert GetParsedValue(t, v) == CheckBounds(t, v, r.value);
    }
  }

  lemma DateAfterValidate(c: Condition, v: Value)
    requires ValidateVariant(Date(c), v).Pass?
    ensures NoCrash(GetParsedValue(Date(c), v))
    ensures GetParsedValue(Date(c), v).Ok? ==> ParsedAs(GetParsedValue(Date(c), v).value, Date(c))
  {
    assert v.VStr?;
  }

  lemma DatetimeAfterValidate(c: Condition, v: Value)
    requires ValidateVariant(Datetime(c), v).Pass?
    ensures NoCrash(GetParsedValue(Datetime(c), v))
    ensures GetParsedValue(Datetime(c), v).Ok? ==> ParsedAs(GetParsedValue(Datetime(c), v).value, Datetime(c))
  {
    assert v.VStr?;
  }

  /**
   * The parse pass of an input the validation pass accepted raises only
   * `ValidationError`, and its result has the schema's shape.
   */
  lemma {:induction false} ParseAfterValidate(v: Value, s: Schema, p: seq<Segment>)
    requires WellFormed(s) && Validate(v, s, p).Pass?
    ensures NoCrash(Parse(v, s, p))
    ensures Parse(v, s, p).Ok? ==> Shaped(Parse(v, s, p).value, s)
    decreases s, 2, 0
  {
    match s
    case Scalar(t) => ScalarAfterValidate(v, s, p);
    case Optional(inner) => OptionalAfterValidate(v, s, p);
    case Any(alternatives) => AnyAfterValidate(v, s, p, 0, []);
    case Dict(fields) => DictAfterValidate(v, s, p);
    case List(elements) => ListAfterValidate(v, s, p);
    case Tuple(slots) => TupleAfterValidate(v, s, p);
  }

  lemma ScalarAfterValidate(v: Value, s: Schema, p: seq<Segment>)
    requires s.Scalar? && Validate(v, s, p).Pass?
    ensures NoCrash(Parse(v, s, p))
    ensures Parse(v, s, p).Ok? ==> Shaped(Parse(v, s, p).value, s)
  {
    assert Validate(v, s, p) == PrefixOutcome(ValidateVariant(s.variant, v), p);
    VariantParseAfterValidate(s.variant, v);
    assert Parse(v, s, p) == PrefixResult(GetParsedValue(s.variant, v), p);
  }

  lemma {:induction false} OptionalAfterValidate(v: Value, s: Schema, p: seq<Segment>)
    requires s.Optional? && WellFormed(s) && Validate(v, s, p).Pass?
    ensures NoCrash(Parse(v, s, p))
    ensures Parse(v, s, p).Ok? ==> Shaped(Parse(v, s, p).value, s)
    decreases s, 1, 0
  {
    if !v.VNull? {
      assert Validate(v, s.inner, []).Pass?;
      ParseAfterValidate(v, s.inner, []);
      var q := Parse(v, s.inner, []);
      assert Parse(v, s, p) == if q.Ok? then q else Err(Prefixed(WrapOptional(q.failure), p));
    }
  }

  lemma {:induction false} DictAfterValidate(v: Value, s: Schema, p: seq<Segment>)
    requires s.Dict? && WellFormed(s) && Validate(v, s, p).Pass?
    ensures NoCrash(Parse(v, s, p))
    ensures Parse(v, s, p).Ok? ==> Shaped(Parse(v, s, p).value, s)
    decreases s, 1, 0
  {
    var fields := s.fields;
    assert v.VDict? && MissingKey(fields, v.entries).None?;
    assert ValidateEntries(v.entries, s, p).Pass?;
    EntriesAllPass(v.entries, s, p);
    FieldsAfterValidate(v.entries, s, p, 0);
    assert fields[0..] == fields;
    var r := Parse(v, s, p);
    var f := ParseFields(v.entries, s, p, 0);
    assert r == if f.Ok? then Ok(VDict(f.value)) else Err(f.failure);
    if r.Ok? {
      var out := f.value;
      forall j | 0 <= j < |fields|
        ensures out[j].0 == fields[j].0 && Shaped(out[j].1, fields[j].1)
      {
        assert out[j - 0] == out[j];
      }
      assert Shaped(VDict(out), s);
    }
  }

  lemma {:induction false} ListAfterValidate(v: Value, s: Schema, p: seq<Segment>)
    requires s.List? && WellFormed(s) && Validate(v, s, p).Pass?
    ensures NoCrash(Parse(v, s, p))
    ensures Parse(v, s, p).Ok? ==> Shaped(Parse(v, s, p).value, s)
    decreases s, 1, 0
  {
    if s.elements != [] {
      assert v.IsSequence() && Iterate(v) == Some(v.items);
      assert ValidateItems(v.items, s, p, 0).Pass?;
      ItemsAllPass(v.items, s, p, 0);
      ItemsAfterValidate(v.items, s, p, 0);
      var f := ParseItems(v.items, s, p, 0);
      assert Parse(v, s, p) == if f.Ok? then Ok(VList(f.value)) else Err(f.failure);
    }
  }

  lemma {:induction false} TupleAfterValidate(v: Value, s: Schema, p: seq<Segment>)
    requires s.Tuple? && WellFormed(s) && Validate(v, s, p).Pass?
    ensures NoCrash(Parse(v, s, p))
    ensures Parse(v, s, p).Ok? ==> Shaped(Parse(v, s, p).value, s)
    decreases s, 1, 0
  {
    assert v.IsSequence() && |v.items| == |s.slots| && Iterate(v) == Some(v.items);
    assert ValidateSlots(v.items, s, p, 0).Pass?;
    SlotsAllPass(v.items, s, p, 0);
    SlotsAfterValidate(v.items, s, p, 0);
    var f := ParseSlots(v.items, s, p, 0);
    assert Parse(v, s, p) == if f.Ok? then Ok(VTuple(f.value)) else Err(f.failure);
    if f.Ok? {
      assert |f.value| == |s.slots|;
      assert forall q :: 0 <= q < |s.slots| ==> Shaped(f.value[q], s.slots[q]) by {
        forall q | 0 <= q < |s.slots| ensures Shaped(f.value[q], s.slots[q]) {
          assert f.value[q - 0] == f.value[q];
        }
      }
    }
  }

  /** `clean` on a well-formed schema raises only `ValidationError`, and returns a value of the schema's shape. */
  lemma {:induction false} CleanIsSound(v: Value, s: Schema)
    requires WellFormed(s)
    ensures NoCrash(Clean(v, s))
    ensures Clean(v, s).Ok? ==> Shaped(Clean(v, s).value, s)
    decreases s, 3, 0
  {
    ValidateNeverCrashes(v, s, []);
    if Validate(v, s, []).Pass? {
      ParseAfterValidate(v, s, []);
    }
  }

  lemma {:induction false} AnyAfterValidate(v: Value, s: Schema, p: seq<Segment>, i: nat, traces: seq<Trace>)
    requires s.Any? && WellFormed(s) && i <= |s.alternatives|
    ensures NoCrash(ParseAny(v, s, p, i, traces))
    ensures ParseAny(v, s, p, i, traces).Ok? ==> Shaped(ParseAny(v, s, p, i, traces).value, s)
    decreases s, 0, |s.alternatives| - i
  {
    if i < |s.alternatives| {
      var c := Clean(v, s.alternatives[i]);
      assert Attempt(v, s, i) == c;
      CleanIsSound(v, s.alternatives[i]);
      AnyAfterValidate(v, s, p, i + 1, traces + if c.Err? then [c.failure.error.trace] else []);
      if c.Ok? {
        assert Shaped(ParseAny(v, s, p, i, traces).value, s.alternatives[i]);
      }
    }
  }

  /** With distinct keys, a field's key leads back to that field. */
  lemma FieldOfKey(fields: seq<(string, Schema)>, i: nat)
    requires DistinctKeys(fields) && i < |fields|
    ensures IndexOf(fields, fields[i].0) == Some(i)
  {
    var r := IndexOf(fields, fields[i].0);
    assert fields[i].0 in Keys(fields) by {
      assert Keys(fields)[i] == fields[i].0;
    }
  }

  lemma {:induction false} FieldsAfterValidate(entries: seq<(string, Value)>, s: Schema, p: seq<Segment>, i: nat)
    requires s.Dict? && WellFormed(s) && i <= |s.fields|
    requires MissingKey(s.fields, entries).None?
    requires forall m :: 0 <= m < |entries| ==> EntryPasses(entries[m], s, p)
    ensures NoCrash(ParseFields(entries, s, p, i))
    ensures ParseFields(entries, s, p, i).Ok? ==>
      forall j :: i <= j < |s.fields| ==> Shaped(ParseFields(entries, s, p, i).value[j - i].1, s.fields[j].1)
    decreases s, 0, |s.fields| - i
  {
    if i < |s.fields| {
      var k := s.fields[i].0;
      FieldAfterValidate(entries, s, p, i);
      FieldsAfterValidate(entries, s, p, i + 1);
      var r := ParseFields(entries, s, p, i);
      var head := ParseField(entries, s, p, i);
      var tail := ParseFields(entries, s, p, i + 1);
      if r.Ok? {
        FieldsParsed(entries, s, p, i);
        forall j | i <= j < |s.fields|
          ensures Shaped(r.value[j - i].1, s.fields[j].1)
        {
          FieldAfterValidate(entries, s, p, j);
        }
      } else {
        assert r.failure == if head.Err? then head.failure else tail.failure;
      }
    }
  }

  /** One field: its value, looked up with `get`, parses without raising anything but `ValidationError`. */
  lemma FieldAfterValidate(entries: seq<(string, Value)>, s: Schema, p: seq<Segment>, i: nat)
    requires s.Dict? && WellFormed(s) && i < |s.fields|
    requires MissingKey(s.fields, entries).None?
    requires forall m :: 0 <= m < |entries| ==> EntryPasses(entries[m], s, p)
    ensures NoCrash(ParseField(entries, s, p, i))
    ensures ParseField(entries, s, p, i).Ok? ==> Shaped(ParseField(entries, s, p, i).value, s.fields[i].1)
    decreases s, 0, 0
  {
    var k := s.fields[i].0;
    var sub := s.fields[i].1;
    assert ParseField(entries, s, p, i) == Parse(Get(entries, k), sub, p + [ObjectKey(k)]);
    assert WellFormed(sub);
    match IndexOf(entries, k)
    case None =>
      assert !IsMissing(s.fields[i], entries);
      assert sub.Optional? && Get(entries, k) == VNull;
    case Some(m) =>
      FieldOfKey(s.fields, i);
      assert EntryPasses(entries[m], s, p);
      ParseAfterValidate(entries[m].1, sub, p + [ObjectKey(k)]);
  }

  lemma {:induction false} ItemsAfterValidate(items: seq<Value>, s: Schema, p: seq<Segment>, i: nat)
    requires s.List? && |s.elements| == 1 && WellFormed(s) && i <= |items|
    requires forall q :: i <= q < |items| ==> ValidateElement(items, s, p, q).Pass?
    ensures NoCrash(ParseItems(items, s, p, i))
    ensures ParseItems(items, s, p, i).Ok? ==>
      forall q :: 0 <= q < |items| - i ==> Shaped(ParseItems(items, s, p, i).value[q], s.elements[0])
    decreases s, 0, |items| - i
  {
    if i < |items| {
      assert ValidateElement(items, s, p, i) == Validate(items[i], s.elements[0], p + [ListIndex(i)]);
      ParseAfterValidate(items[i], s.elements[0], p + [ListIndex(i)]);
      ItemsAfterValidate(items, s, p, i + 1);
    }
  }

  lemma {:induction false} SlotsAfterValidate(items: seq<Value>, s: Schema, p: seq<Segment>, i: nat)
    requires s.Tuple? && |items| == |s.slots| && WellFormed(s) && i <= |items|
    requires forall q :: i <= q < |items| ==> ValidateSlot(items, s, p, q).Pass?
    ensures NoCrash(ParseSlots(items, s, p, i))
    ensures ParseSlots(items, s, p, i).Ok? ==>
      forall q :: i <= q < |items| ==> Shaped(ParseSlots(items, s, p, i).value[q - i], s.slots[q])
    decreases s, 0, |items| - i
  {
    if i < |items| {
      assert ValidateSlot(items, s, p, i) == Validate(items[i], s.slots[i], p + [TupleIndex(i)]);
      ParseAfterValidate(items[i], s.slots[i], p + [TupleIndex(i)]);
      SlotsAfterValidate(items, s, p, i + 1);
    }
  }
}

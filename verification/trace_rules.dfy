/**
 * How traces are composed. Each level of the walk passes its own segment
 * down (`current_trace`), so a failure found inside a container carries the
 * container's path in front of the trace the inner schema alone would give:
 * outermost segment first, rendered joined by ` --> `.
 */
module TraceRules {
  import opened Wrappers
  import opened Values
  import opened Errors
  import opened Variants
  import opened Walker
  import opened SequenceRules
  import opened MappingRules

  lemma PrefixOutcomeTwice(o: Outcome, inner: seq<Segment>, outer: seq<Segment>)
    ensures PrefixOutcome(PrefixOutcome(o, inner), outer) == PrefixOutcome(o, outer + inner)
  {
    if o.Fail? {
      PrefixedTwice(o.failure, inner, outer);
    }
  }

  lemma PrefixResultTwice<T>(r: Result<T>, inner: seq<Segment>, outer: seq<Segment>)
    ensures PrefixResult(PrefixResult(r, inner), outer) == PrefixResult(r, outer + inner)
  {
    if r.Err? {
      PrefixedTwice(r.failure, inner, outer);
    }
  }

  lemma ScalarPrefix(v: Value, t: Variant, p: seq<Segment>)
    ensures Validate(v, Scalar(t), p) == PrefixOutcome(Validate(v, Scalar(t), []), p)
    ensures Parse(v, Scalar(t), p) == PrefixResult(Parse(v, Scalar(t), []), p)
  {
    assert p + [] == p;
    assert Validate(v, Scalar(t), []) == PrefixOutcome(ValidateVariant(t, v), []);
    assert Parse(v, Scalar(t), []) == PrefixResult(GetParsedValue(t, v), []);
    PrefixOutcomeTwice(ValidateVariant(t, v), [], p);
    PrefixResultTwice(GetParsedValue(t, v), [], p);
  }

  /** The validation pass at `p` is the pass at the root with `p` put in front of the trace. */
  lemma {:induction false} ValidatePrefix(v: Value, s: Schema, p: seq<Segment>)
    ensures Validate(v, s, p) == PrefixOutcome(Validate(v, s, []), p)
    decreases s, 1, 0
  {
    assert p + [] == p;
    match s
    case Scalar(t) => ScalarPrefix(v, t, p);
    case Optional(inner) =>
      if !v.VNull? && Validate(v, inner, []).Fail? {
        PrefixedTwice(WrapOptional(Validate(v, inner, []).failure), [], p);
      }
    case Any(_) =>
    case Dict(fields) =>
      if v.VDict? && MissingKey(fields, v.entries).None? {
        EntriesPrefix(v.entries, s, p);
      }
    case List(elements) =>
      if |elements| == 1 && v.IsSequence() {
        ItemsPrefix(v.items, s, p, 0);
      }
    case Tuple(slots) =>
      if v.IsSequence() && |slots| == |v.items| {
        SlotsPrefix(v.items, s, p, 0);
      }
  }

  lemma {:induction false} EntriesPrefix(entries: seq<(string, Value)>, s: Schema, p: seq<Segment>)
    requires s.Dict?
    ensures ValidateEntries(entries, s, p) == PrefixOutcome(ValidateEntries(entries, s, []), p)
    decreases s, 0, |entries|
  {
    if entries != [] {
      match IndexOf(s.fields, entries[0].0)
      case None =>
        EntriesPrefix(entries[1..], s, p);
      case Some(j) =>
        ValidatePrefix(entries[0].1, s.fields[j].1, p + [ObjectKey(entries[0].0)]);
        ValidatePrefix(entries[0].1, s.fields[j].1, [ObjectKey(entries[0].0)]);
        PrefixOutcomeTwice(Validate(entries[0].1, s.fields[j].1, []), [ObjectKey(entries[0].0)], p);
        assert [] + [ObjectKey(entries[0].0)] == [ObjectKey(entries[0].0)];
        EntriesPrefix(entries[1..], s, p);
    }
  }

  lemma {:induction false} ItemsPrefix(items: seq<Value>, s: Schema, p: seq<Segment>, i: nat)
    requires s.List? && |s.elements| == 1 && i <= |items|
    ensures ValidateItems(items, s, p, i) == PrefixOutcome(ValidateItems(items, s, [], i), p)
    decreases s, 0, |items| - i
  {
    if i < |items| {
      ValidatePrefix(items[i], s.elements[0], p + [ListIndex(i)]);
      ValidatePrefix(items[i], s.elements[0], [ListIndex(i)]);
      PrefixOutcomeTwice(Validate(items[i], s.elements[0], []), [ListIndex(i)], p);
      assert [] + [ListIndex(i)] == [ListIndex(i)];
      ItemsPrefix(items, s, p, i + 1);
    }
  }

  lemma {:induction false} SlotsPrefix(items: seq<Value>, s: Schema, p: seq<Segment>, i: nat)
    requires s.Tuple? && |items| == |s.slots| && i <= |items|
    ensures ValidateSlots(items, s, p, i) == PrefixOutcome(ValidateSlots(items, s, [], i), p)
    decreases s, 0, |items| - i
  {
    if i < |items| {
      ValidatePrefix(items[i], s.slots[i], p + [TupleIndex(i)]);
      ValidatePrefix(items[i], s.slots[i], [TupleIndex(i)]);
      PrefixOutcomeTwice(Validate(items[i], s.slots[i], []), [TupleIndex(i)], p);
      assert [] + [TupleIndex(i)] == [TupleIndex(i)];
      SlotsPrefix(items, s, p, i + 1);
    }
  }

  /** The parse pass at `p` is the pass at the root with `p` put in front of the trace. */
  lemma {:induction false} ParsePrefix(v: Value, s: Schema, p: seq<Segment>)
    ensures Parse(v, s, p) == PrefixResult(Parse(v, s, []), p)
    decreases s, 1, 0
  {
    assert p + [] == p;
    match s
    case Scalar(t) => ScalarPrefix(v, t, p);
    case Optional(inner) =>
      if !v.VNull? && Parse(v, inner, []).Err? {
        PrefixedTwice(WrapOptional(Parse(v, inner, []).failure), [], p);
      }
    case Any(_) =>
      AnyPrefix(v, s, p, 0, []);
    case Dict(fields) =>
      if v.VDict? {
        FieldsPrefix(v.entries, s, p, 0);
      }
    case List(elements) =>
      if elements != [] && Iterate(v).Some? {
        ParseItemsPrefix(Iterate(v).value, s, p, 0);
      }
    case Tuple(slots) =>
      if Iterate(v).Some? {
        ParseSlotsPrefix(Iterate(v).value, s, p, 0);
      }
  }

  lemma {:induction false} AnyPrefix(v: Value, s: Schema, p: seq<Segment>, i: nat, traces: seq<Trace>)
    requires s.Any? && i <= |s.alternatives|
    ensures ParseAny(v, s, p, i, traces) == PrefixResult(ParseAny(v, s, [], i, traces), p)
    decreases |s.alternatives| - i
  {
    assert p + [] == p;
    if i < |s.alternatives| {
      var c := Clean(v, s.alternatives[i]);
      if c.Err? && c.failure.Invalid? {
        AnyPrefix(v, s, p, i + 1, traces + [c.failure.error.trace]);
      }
    }
  }

  lemma {:induction false} FieldsPrefix(entries: seq<(string, Value)>, s: Schema, p: seq<Segment>, i: nat)
    requires s.Dict? && i <= |s.fields|
    ensures ParseFields(entries, s, p, i) == PrefixResult(ParseFields(entries, s, [], i), p)
    decreases s, 0, |s.fields| - i
  {
    if i < |s.fields| {
      var k := s.fields[i].0;
      ParsePrefix(Get(entries, k), s.fields[i].1, p + [ObjectKey(k)]);
      ParsePrefix(Get(entries, k), s.fields[i].1, [ObjectKey(k)]);
      PrefixResultTwice(Parse(Get(entries, k), s.fields[i].1, []), [ObjectKey(k)], p);
      assert [] + [ObjectKey(k)] == [ObjectKey(k)];
      FieldsPrefix(entries, s, p, i + 1);
    }
  }

  lemma {:induction false} ParseItemsPrefix(items: seq<Value>, s: Schema, p: seq<Segment>, i: nat)
    requires s.List? && |s.elements| >= 1 && i <= |items|
    ensures ParseItems(items, s, p, i) == PrefixResult(ParseItems(items, s, [], i), p)
    decreases s, 0, |items| - i
  {
    if i < |items| {
      ParsePrefix(items[i], s.elements[0], p + [ListIndex(i)]);
      ParsePrefix(items[i], s.elements[0], [ListIndex(i)]);
      PrefixResultTwice(Parse(items[i], s.elements[0], []), [ListIndex(i)], p);
      assert [] + [ListIndex(i)] == [ListIndex(i)];
      ParseItemsPrefix(items, s, p, i + 1);
    }
  }

  lemma {:induction false} ParseSlotsPrefix(items: seq<Value>, s: Schema, p: seq<Segment>, i: nat)
    requires s.Tuple? && i <= |items|
    ensures ParseSlots(items, s, p, i) == PrefixResult(ParseSlots(items, s, [], i), p)
    decreases s, 0, |items| - i
  {
    if i < |items| && i < |s.slots| {
      ParsePrefix(items[i], s.slots[i], p + [TupleIndex(i)]);
      ParsePrefix(items[i], s.slots[i], [TupleIndex(i)]);
      PrefixResultTwice(Parse(items[i], s.slots[i], []), [TupleIndex(i)], p);
      assert [] + [TupleIndex(i)] == [TupleIndex(i)];
      ParseSlotsPrefix(items, s, p, i + 1);
    }
  }

  /**
   * In the source's own terms: the trace string of a failure found at
   * `current_trace` is `current_trace` followed by the trace string the same
   * check gives at the root.
   */
  lemma RenderedTrace(v: Value, s: Schema, p: seq<Segment>)
    requires Validate(v, s, []).Fail? && Validate(v, s, []).failure.Invalid?
    ensures Validate(v, s, p).Fail? && Validate(v, s, p).failure.Invalid?
    ensures Render(Validate(v, s, p).failure.error.trace)
         == PathText(p) + Render(Validate(v, s, []).failure.error.trace)
  {
    ValidatePrefix(v, s, p);
    RenderPrefixed(p, Validate(v, s, []).failure.error.trace);
  }

  /** A failing element of a list carries `List(index:k)` in front of the element's own trace. */
  lemma {:induction false} ListElementTrace(v: Value, e: Schema, p: seq<Segment>, k: nat)
    requires v.IsSequence() && k < |v.items|
    requires forall q :: 0 <= q < k ==> Validate(v.items[q], e, p + [ListIndex(q)]).Pass?
    requires Validate(v.items[k], e, []).Fail?
    ensures Validate(v, List([e]), p) == PrefixOutcome(Validate(v.items[k], e, []), p + [ListIndex(k)])
  {
    var s := List([e]);
    assert s.elements[0] == e;
    assert forall q :: 0 <= q < k ==> Validate(v.items[q], s.elements[0], p + [ListIndex(q)]).Pass?;
    ValidatePrefix(v.items[k], e, p + [ListIndex(k)]);
    ItemsFirstFailure(v.items, s, p, 0, k);
    assert Validate(v, s, p) == ValidateItems(v.items, s, p, 0);
  }

  /** A failing position of a tuple carries `Tuple(index:k)` in front of the slot's own trace. */
  lemma {:induction false} TupleElementTrace(v: Value, slots: seq<Schema>, p: seq<Segment>, k: nat)
    requires v.IsSequence() && |v.items| == |slots| && k < |slots|
    requires forall q :: 0 <= q < k ==> Validate(v.items[q], slots[q], p + [TupleIndex(q)]).Pass?
    requires Validate(v.items[k], slots[k], []).Fail?
    ensures Validate(v, Tuple(slots), p) == PrefixOutcome(Validate(v.items[k], slots[k], []), p + [TupleIndex(k)])
  {
    var s := Tuple(slots);
    ValidatePrefix(v.items[k], slots[k], p + [TupleIndex(k)]);
    SlotsFirstFailure(v.items, s, p, 0, k);
    assert Validate(v, s, p) == ValidateSlots(v.items, s, p, 0);
  }

  /** A failing value of a dict carries `Object(key:'k')` in front of the value's own trace. */
  lemma {:induction false} ObjectValueTrace(entries: seq<(string, Value)>, fields: seq<(string, Schema)>, p: seq<Segment>, m: nat)
    requires MissingKey(fields, entries).None? && m < |entries|
    requires forall q :: 0 <= q < m ==> EntryPasses(entries[q], Dict(fields), p)
    requires IndexOf(fields, entries[m].0).Some?
    requires Validate(entries[m].1, fields[IndexOf(fields, entries[m].0).value].1, []).Fail?
    ensures Validate(VDict(entries), Dict(fields), p)
         == PrefixOutcome(Validate(entries[m].1, fields[IndexOf(fields, entries[m].0).value].1, []),
                          p + [ObjectKey(entries[m].0)])
  {
    var sub := fields[IndexOf(fields, entries[m].0).value].1;
    ValidatePrefix(entries[m].1, sub, p + [ObjectKey(entries[m].0)]);
    EntriesFirstFailure(entries, Dict(fields), p, m);
  }
}

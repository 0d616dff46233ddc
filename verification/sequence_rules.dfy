/**
 * What the walker does with `list` and `tuple` schemas: the input must be a
 * list or tuple, a list schema holds at most one element schema, `[]`
 * accepts any sequence and parses to `[]`, `[s]` checks every element in
 * index order, and a tuple needs exactly one element per slot.
 */
module SequenceRules {
  import opened Wrappers
  import opened Values
  import opened Errors
  import opened Variants
  import opened Walker

  lemma NotASequence(v: Value, elements: seq<Schema>, slots: seq<Schema>, p: seq<Segment>)
    requires !v.IsSequence() && |elements| <= 1
    ensures Validate(v, List(elements), p) == Fail(Rejection(v, "is not a list or tuple", p, "List"))
    ensures Validate(v, Tuple(slots), p) == Fail(Rejection(v, "is not a list or tuple", p, "Tuple"))
  {
  }

  /** A list schema of two or more element schemas is a configuration error, whatever the input. */
  lemma OverlongListSchema(v: Value, elements: seq<Schema>, p: seq<Segment>)
    requires |elements| > 1
    ensures Validate(v, List(elements), p) == Fail(Crash("TypeError"))
  {
  }

  /** `[]` accepts every list or tuple and parses it to the empty list, whatever its length. */
  lemma EmptyListSchema(v: Value, p: seq<Segment>)
    requires v.IsSequence()
    ensures Validate(v, List([]), p) == Pass
    ensures Parse(v, List([]), p) == Ok(VList([]))
  {
  }

  /** The elements pass exactly when each one, at its own index, passes. */
  lemma {:induction false} ItemsAllPass(items: seq<Value>, s: Schema, p: seq<Segment>, i: nat)
    requires s.List? && |s.elements| == 1 && i <= |items|
    ensures ValidateItems(items, s, p, i).Pass?
        <==> forall q :: i <= q < |items| ==> ValidateElement(items, s, p, q).Pass?
    decreases |items| - i
  {
    if i < |items| {
      var head := ValidateElement(items, s, p, i);
      assert ValidateItems(items, s, p, i) == if head.Pass? then ValidateItems(items, s, p, i + 1) else head;
      ItemsAllPass(items, s, p, i + 1);
      if head.Pass? && ValidateItems(items, s, p, i + 1).Pass? {
        forall q | i <= q < |items| ensures ValidateElement(items, s, p, q).Pass? {
        }
      } else if head.Pass? {
        var q :| i + 1 <= q < |items| && !ValidateElement(items, s, p, q).Pass?;
      } else {
        assert !ValidateElement(items, s, p, i).Pass?;
      }
    }
  }

  /** Elements are checked in index order: the first failing element decides. */
  lemma {:induction false} ItemsFirstFailure(items: seq<Value>, s: Schema, p: seq<Segment>, i: nat, k: nat)
    requires s.List? && |s.elements| == 1 && i <= k < |items|
    requires forall q :: i <= q < k ==> ValidateElement(items, s, p, q).Pass?
    requires ValidateElement(items, s, p, k).Fail?
    ensures ValidateItems(items, s, p, i) == ValidateElement(items, s, p, k)
    decreases k - i
  {
    if i < k {
      ItemsFirstFailure(items, s, p, i + 1, k);
    }
  }

  /** `[s]` parses a sequence to a list of the same length. */
  lemma ListKeepsLength(v: Value, e: Schema, p: seq<Segment>)
    requires v.IsSequence() && Parse(v, List([e]), p).Ok?
    ensures Parse(v, List([e]), p).value.VList?
    ensures |Parse(v, List([e]), p).value.items| == |v.items|
  {
  }

  /** A length mismatch fails at the tuple, saying "few" exactly when the input is shorter. */
  lemma TupleArity(v: Value, slots: seq<Schema>, p: seq<Segment>)
    requires v.IsSequence() && |v.items| != |slots|
    ensures Validate(v, Tuple(slots), p).Fail?
    ensures Validate(v, Tuple(slots), p).failure
         == Rejection(v, "has too " + (if |v.items| < |slots| then "few" else "many")
                         + " elements (it requires " + NatToString(|slots|) + ")", p, "Tuple")
  {
  }

  /** The positions pass exactly when each one passes against its own slot. */
  lemma {:induction false} SlotsAllPass(items: seq<Value>, s: Schema, p: seq<Segment>, i: nat)
    requires s.Tuple? && |items| == |s.slots| && i <= |items|
    ensures ValidateSlots(items, s, p, i).Pass?
        <==> forall q :: i <= q < |items| ==> ValidateSlot(items, s, p, q).Pass?
    decreases |items| - i
  {
    if i < |items| {
      var head := ValidateSlot(items, s, p, i);
      assert ValidateSlots(items, s, p, i) == if head.Pass? then ValidateSlots(items, s, p, i + 1) else head;
      SlotsAllPass(items, s, p, i + 1);
      if head.Pass? && ValidateSlots(items, s, p, i + 1).Pass? {
        forall q | i <= q < |items| ensures ValidateSlot(items, s, p, q).Pass? {
        }
      } else if head.Pass? {
        var q :| i + 1 <= q < |items| && !ValidateSlot(items, s, p, q).Pass?;
      } else {
        assert !ValidateSlot(items, s, p, i).Pass?;
      }
    }
  }

  /** Positions are checked in order: the first failing slot decides. */
  lemma {:induction false} SlotsFirstFailure(items: seq<Value>, s: Schema, p: seq<Segment>, i: nat, k: nat)
    requires s.Tuple? && |items| == |s.slots| && i <= k < |items|
    requires forall q :: i <= q < k ==> ValidateSlot(items, s, p, q).Pass?
    requires ValidateSlot(items, s, p, k).Fail?
    ensures ValidateSlots(items, s, p, i) == ValidateSlot(items, s, p, k)
    decreases k - i
  {
    if i < k {
      SlotsFirstFailure(items, s, p, i + 1, k);
    }
  }

  /** A tuple that validates parses to a tuple with one element per slot. */
  lemma TupleOnePerSlot(v: Value, slots: seq<Schema>, p: seq<Segment>)
    requires Validate(v, Tuple(slots), p).Pass? && Parse(v, Tuple(slots), p).Ok?
    ensures Parse(v, Tuple(slots), p).value.VTuple?
    ensures |Parse(v, Tuple(slots), p).value.items| == |slots|
  {
  }
}

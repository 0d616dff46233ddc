/**
 * The two combinators that recurse. `Optional(s)` lets `None` through both
 * passes and otherwise behaves as `s`, re-raising its failure with the trace
 * wrapped as `Optional(...)`. `Any(a1, a2, ...)` accepts everything in the
 * validation pass and, in the parse pass, returns what the first
 * alternative that cleans produces; when none does it reports the input
 * with one trace per alternative.
 */
module CombinatorRules {
  import opened Wrappers
  import opened Values
  import opened Errors
  import opened Walker
  import opened TraceRules

  /** `None` is accepted by every `Optional` and parsed to `None`, whatever the inner schema. */
  lemma OptionalOfNone(s: Schema, p: seq<Segment>)
    ensures Validate(VNull, Optional(s), p) == Pass
    ensures Parse(VNull, Optional(s), p) == Ok(VNull)
    ensures Clean(VNull, Optional(s)) == Ok(VNull)
  {
  }

  /**
   * Any other input is validated exactly as by the inner schema: it passes
   * when the inner schema passes, and an inner rejection keeps its value and
   * message while its root trace moves inside `Optional(...)`.
   */
  lemma {:induction false} OptionalValidates(v: Value, s: Schema, p: seq<Segment>)
    requires !v.VNull?
    ensures Validate(v, Optional(s), p).Pass? <==> Validate(v, s, p).Pass?
    ensures Validate(v, s, []).Fail? && Validate(v, s, []).failure.Crash? ==>
      Validate(v, Optional(s), p) == Validate(v, s, [])
    ensures Validate(v, s, []).Fail? && Validate(v, s, []).failure.Invalid? ==>
      var e := Validate(v, s, []).failure.error;
      Validate(v, Optional(s), p)
        == Fail(Invalid(ValidationError(e.value, e.message, Trace(p, InOptional(e.trace)))))
  {
    ValidatePrefix(v, s, p);
  }

  /** The parse pass of `Optional(s)` on anything but `None` is the parse pass of `s`, with the trace wrapped likewise. */
  lemma {:induction false} OptionalParses(v: Value, s: Schema, p: seq<Segment>)
    requires !v.VNull?
    ensures Parse(v, Optional(s), p).Ok? <==> Parse(v, s, p).Ok?
    ensures Parse(v, s, p).Ok? ==> Parse(v, Optional(s), p) == Parse(v, s, p)
    ensures Parse(v, s, []).Err? && Parse(v, s, []).failure.Invalid? ==>
      var e := Parse(v, s, []).failure.error;
      Parse(v, Optional(s), p)
        == Err(Invalid(ValidationError(e.value, e.message, Trace(p, InOptional(e.trace)))))
  {
    ParsePrefix(v, s, p);
  }

  /** `Any` performs no check in the validation pass. */
  lemma AnyValidatePasses(v: Value, alternatives: seq<Schema>, p: seq<Segment>)
    ensures Validate(v, Any(alternatives), p) == Pass
  {
  }

  /** An alternative rejected the input with a `ValidationError` (the only exception `Any` catches). */
  predicate Rejected(r: Result<Value>) {
    r.Err? && r.failure.Invalid?
  }

  /** Alternative `j` rejects the input. */
  predicate RejectsAt(v: Value, alternatives: seq<Schema>, j: nat) {
    j < |alternatives| && Rejected(Attempt(v, Any(alternatives), j))
  }

  /** Every alternative rejects the input. */
  predicate AllRejected(v: Value, alternatives: seq<Schema>) {
    forall j :: 0 <= j < |alternatives| ==> RejectsAt(v, alternatives, j)
  }

  /** The traces of the rejections by alternatives `i` up to `k`, in order. */
  function RejectionTraces(v: Value, alternatives: seq<Schema>, i: nat, k: nat): (r: seq<Trace>)
    requires i <= k <= |alternatives|
    requires forall j :: i <= j < k ==> RejectsAt(v, alternatives, j)
    ensures |r| == k - i
    decreases k - i
  {
    if i == k then []
    else
      assert RejectsAt(v, alternatives, i);
      [RejectionTrace(v, alternatives, i)] + RejectionTraces(v, alternatives, i + 1, k)
  }

  /** The trace of the `ValidationError` alternative `j` raised. */
  function RejectionTrace(v: Value, alternatives: seq<Schema>, j: nat): Trace
    requires RejectsAt(v, alternatives, j)
  {
    Attempt(v, Any(alternatives), j).failure.error.trace
  }

  /** Each alternative contributes its own trace, at its own position. */
  lemma {:induction false} RejectionTraceAt(v: Value, alternatives: seq<Schema>, i: nat, k: nat, j: nat)
    requires i <= j < k <= |alternatives|
    requires forall q :: i <= q < k ==> RejectsAt(v, alternatives, q)
    ensures RejectsAt(v, alternatives, j)
    ensures RejectionTraces(v, alternatives, i, k)[j - i] == RejectionTrace(v, alternatives, j)
    decreases j - i
  {
    assert RejectsAt(v, alternatives, j);
    RejectionTracesStep(v, alternatives, i, k);
    if i < j {
      var rest := RejectionTraces(v, alternatives, i + 1, k);
      RejectionTraceAt(v, alternatives, i + 1, k, j);
      assert RejectionTraces(v, alternatives, i, k)[j - i] == rest[j - (i + 1)];
    }
  }

  lemma RejectionTracesStep(v: Value, alternatives: seq<Schema>, i: nat, k: nat)
    requires i < k <= |alternatives|
    requires forall j :: i <= j < k ==> RejectsAt(v, alternatives, j)
    ensures RejectsAt(v, alternatives, i)
    ensures RejectionTraces(v, alternatives, i, k)
         == [RejectionTrace(v, alternatives, i)] + RejectionTraces(v, alternatives, i + 1, k)
  {
    assert RejectsAt(v, alternatives, i);
  }

  lemma {:induction false} AnySkipsRejected(v: Value, s: Schema, p: seq<Segment>, i: nat, k: nat, traces: seq<Trace>)
    requires s.Any? && i <= k <= |s.alternatives|
    requires forall j :: i <= j < k ==> RejectsAt(v, s.alternatives, j)
    ensures ParseAny(v, s, p, i, traces) == ParseAny(v, s, p, k, traces + RejectionTraces(v, s.alternatives, i, k))
    decreases k - i
  {
    if i == k {
      assert traces + [] == traces;
    } else {
      RejectionTracesStep(v, s.alternatives, i, k);
      var t := AnySkipsOne(v, s, p, i, traces);
      var rest := RejectionTraces(v, s.alternatives, i + 1, k);
      AnySkipsRejected(v, s, p, i + 1, k, traces + [t]);
      assert traces + [t] + rest == traces + ([t] + rest);
    }
  }

  /** One rejecting alternative is skipped, its trace appended. */
  lemma AnySkipsOne(v: Value, s: Schema, p: seq<Segment>, i: nat, traces: seq<Trace>) returns (t: Trace)
    requires s.Any? && RejectsAt(v, s.alternatives, i)
    ensures t == RejectionTrace(v, s.alternatives, i)
    ensures ParseAny(v, s, p, i, traces) == ParseAny(v, s, p, i + 1, traces + [t])
  {
    t := RejectionTrace(v, s.alternatives, i);
  }

  /**
   * The first alternative that does not reject the input decides: its value,
   * or the exception it raised (an exception other than `ValidationError`
   * passes through `Any`). Later alternatives are not consulted.
   */
  lemma {:induction false} AnyFirstDecisive(v: Value, alternatives: seq<Schema>, p: seq<Segment>, k: nat)
    requires k < |alternatives|
    requires forall j :: 0 <= j < k ==> RejectsAt(v, alternatives, j)
    requires !Rejected(Clean(v, alternatives[k]))
    ensures Parse(v, Any(alternatives), p) == Clean(v, alternatives[k])
  {
    var s := Any(alternatives);
    AnySkipsRejected(v, s, p, 0, k, []);
    AnyStopsAt(v, s, p, k, [] + RejectionTraces(v, alternatives, 0, k));
  }

  lemma AnyStopsAt(v: Value, s: Schema, p: seq<Segment>, k: nat, traces: seq<Trace>)
    requires s.Any? && k < |s.alternatives|
    requires !Rejected(Clean(v, s.alternatives[k]))
    ensures ParseAny(v, s, p, k, traces) == Clean(v, s.alternatives[k])
  {
  }

  /**
   * When every alternative rejects the input, `Any` rejects it: the value is
   * the input, the message is the fixed one, and the trace lists each
   * alternative's own trace in order.
   */
  lemma {:induction false} AnyAllRejected(v: Value, alternatives: seq<Schema>, p: seq<Segment>)
    requires AllRejected(v, alternatives)
    ensures Parse(v, Any(alternatives), p)
         == Err(Invalid(ValidationError(v, AnyMessage, Trace(p, InAny(RejectionTraces(v, alternatives, 0, |alternatives|))))))
  {
    AnySkipsRejected(v, Any(alternatives), p, 0, |alternatives|, []);
    assert [] + RejectionTraces(v, alternatives, 0, |alternatives|) == RejectionTraces(v, alternatives, 0, |alternatives|);
  }

  /** `Any` rejects an input exactly when all of its alternatives do. */
  lemma {:induction false} AnyRejectsIff(v: Value, alternatives: seq<Schema>, p: seq<Segment>)
    ensures Rejected(Parse(v, Any(alternatives), p)) <==> AllRejected(v, alternatives)
  {
    if AllRejected(v, alternatives) {
      AnyAllRejected(v, alternatives, p);
    } else {
      var flags := seq(|alternatives|, j requires 0 <= j < |alternatives| => RejectsAt(v, alternatives, j));
      var m :| 0 <= m < |alternatives| && !RejectsAt(v, alternatives, m);
      assert flags[m] == false;
      var k := FirstFalse(flags, 0);
      forall j | 0 <= j < k
        ensures RejectsAt(v, alternatives, j)
      {
        assert flags[j];
      }
      assert !flags[k];
      AnyFirstDecisive(v, alternatives, p, k);
    }
  }

  /** The first `false` from position `i` on, when there is one and everything before `i` is `true`. */
  lemma {:induction false} FirstFalse(flags: seq<bool>, i: nat) returns (k: nat)
    requires i <= |flags| && false in flags
    requires forall j :: 0 <= j < i ==> flags[j]
    ensures i <= k < |flags| && !flags[k]
    ensures forall j :: 0 <= j < k ==> flags[j]
    decreases |flags| - i
  {
    if i < |flags| && !flags[i] {
      k := i;
    } else {
      k := FirstFalse(flags, i + 1);
    }
  }
}

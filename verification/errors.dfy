/**
 * `ValidationError` and its trace. The source keeps the trace as a string
 * that each enclosing level extends at the front; here it is a path of
 * segments (outermost first) ending in an origin, and `Render` produces the
 * string the source builds.
 */
module Errors {
  import opened Values

  /** `TRACE_SEP`. */
  const TraceSep: string := " --> "

  /** One level of a container: `Object(key:'k')`, `List(index:i)`, `Tuple(index:i)`. */
  datatype Segment = ObjectKey(key: string) | ListIndex(index: nat) | TupleIndex(index: nat)

  datatype Trace = Trace(path: seq<Segment>, origin: Origin)

  /**
   * Where a trace ends: a class name (`Number`, `Object`, `Constant('FOO')`, ...),
   * an `Optional(...)` around the wrapped schema's trace, or an `Any(...)`
   * around the traces of all alternatives.
   */
  datatype Origin = Named(name: string) | InOptional(inner: Trace) | InAny(alternatives: seq<Trace>)

  datatype ValidationError = ValidationError(value: Value, message: string, trace: Trace)

  /**
   * How a pass can end early: a `ValidationError`, or another Python exception
   * (the `TypeError` of a malformed schema, ...) that no part of the engine catches.
   */
  datatype Failure = Invalid(error: ValidationError) | Crash(exception: string)

  /** Result of the validation pass. */
  datatype Outcome = Pass | Fail(failure: Failure)

  /** Result of the parse pass. */
  datatype Result<T> = Ok(value: T) | Err(failure: Failure)

  /** A `ValidationError` raised at the node reached through `prefix`. */
  function Rejection(v: Value, message: string, prefix: seq<Segment>, name: string): Failure {
    Invalid(ValidationError(v, message, Trace(prefix, Named(name))))
  }

  /** `e.trace = f'{current_trace}{e.trace}'`: other exceptions pass unchanged. */
  function Prefixed(f: Failure, prefix: seq<Segment>): (r: Failure)
    ensures r.Crash? <==> f.Crash?
    ensures r.Crash? ==> r == f
    ensures r.Invalid? ==> r.error.value == f.error.value && r.error.message == f.error.message
    ensures r.Invalid? ==> r.error.trace == Trace(prefix + f.error.trace.path, f.error.trace.origin)
  {
    match f
    case Invalid(e) => Invalid(e.(trace := Trace(prefix + e.trace.path, e.trace.origin)))
    case Crash(_) => f
  }

  lemma PrefixedTwice(f: Failure, inner: seq<Segment>, outer: seq<Segment>)
    ensures Prefixed(Prefixed(f, inner), outer) == Prefixed(f, outer + inner)
  {
    if f.Invalid? {
      assert outer + (inner + f.error.trace.path) == (outer + inner) + f.error.trace.path;
    }
  }

  function SegmentText(seg: Segment): string {
    match seg
    case ObjectKey(k) => "Object(key:'" + k + "')"
    case ListIndex(i) => "List(index:" + NatToString(i) + ")"
    case TupleIndex(i) => "Tuple(index:" + NatToString(i) + ")"
  }

  /** The accumulated `current_trace` for a path: every segment followed by ` --> `. */
  function PathText(path: seq<Segment>): string {
    if path == [] then "" else SegmentText(path[0]) + TraceSep + PathText(path[1..])
  }

  /** The trace string the source stores in `ValidationError.trace`. */
  function Render(t: Trace): string {
    PathText(t.path) +
    match t.origin
    case Named(name) => name
    case InOptional(inner) => "Optional(" + Render(inner) + ")"
    case InAny(alts) =>
      "Any(" + Join(seq(|alts|, j requires 0 <= j < |alts| => Render(alts[j])), ", ") + ")"
  }

  lemma {:induction false} PathTextAppend(p: seq<Segment>, q: seq<Segment>)
    ensures PathText(p + q) == PathText(p) + PathText(q)
  {
    if p == [] {
      assert p + q == q;
    } else {
      assert (p + q)[1..] == p[1..] + q;
      PathTextAppend(p[1..], q);
    }
  }

  /**
   * Extending a trace's path at the front extends its text at the front: the
   * structured trace renders to exactly the string concatenation the source does.
   */
  lemma RenderPrefixed(prefix: seq<Segment>, t: Trace)
    ensures Render(Trace(prefix + t.path, t.origin)) == PathText(prefix) + Render(t)
  {
    PathTextAppend(prefix, t.path);
  }
}

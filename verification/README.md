# jsonschema in Dafny

A model of the `jsonschema` package (`jsonschema/__init__.py`). The package validates and coerces
JSON-like values against a schema, in two passes:

- **Schemas.** A schema is one of:
  - a scalar *variant*: `String`, `RegexString`, `Number`, `Null`, `Date`, `Datetime`, `Boolean` or `Constant`;
  - the combinator `Optional(s)` or `Any(s1, s2, ...)`;
  - a `dict` of schemas, a `list` of at most one schema, or a `tuple` of schemas.
- **The passes.** `clean(schema)` runs two passes over the input:
  - `_validate` checks it and stops at the first error;
  - `_parse` then builds the coerced value, through each variant's `get_parsed_value`. That is the variant's `parse` hook, then the user condition, then (for `Number`) the bounds.
- **Errors.** Every rejection is a `ValidationError`. It carries:
  - the offending value;
  - a message;
  - a trace naming where in the schema it happened, e.g. `Object(key:'nest') --> List(index:1) --> Number`.

Modules:

- `Values`: the runtime values.
  - `VNull`, `VBool`, `VInt`, exact decimals `VReal(mantissa, scale)`, `VStr`, `VList`, `VTuple`, `VDict` with ordered string keys, `VDate`, `VDatetime`.
  - The parts of `str()`/`repr()` that messages use.
  - `Normalize`, the int-if-whole step of `Number.parse`.
- `Errors`: `ValidationError` and the failures.
  - A trace is kept structured: a path of `Object(key:…)`/`List(index:…)`/`Tuple(index:…)` segments and an origin. The origin is a class name, `Optional(…)` or `Any(…)`.
  - `Render` gives the trace string the source builds.
  - A `Failure` is either a `ValidationError` or another Python exception (`TypeError`, `IndexError`, …). The engine propagates the latter uncaught.
- `Formats`: the three fixed patterns over ASCII digits, and the calendar and clock rules that `strptime` applies.
- `Variants`: `validate`, `parse` and `get_parsed_value` of every variant.
  - User conditions are functions `Value -> Verdict`.
  - `RegexString`'s compiled pattern is a predicate.
- `Walker`: the schemas and both passes.
  - The validation pass is `Validate`, with `ValidateEntries`, `ValidateItems` and `ValidateSlots`.
  - The parse pass is `Parse`, with `ParseFields`, `ParseItems`, `ParseSlots` and `ParseAny`. `Attempt` is one turn of `Any.parse`'s loop: `clean` against one alternative.
  - `ValidateEntry`, `ValidateElement`, `ValidateSlot`, `ParseField`, `ParseElement` and `ParseSlot` are one turn of the corresponding loops: one entry, element or position against its sub-schema.
  - `Clean` composes them. The `prefix` argument is the source's `current_trace`.
- `Engine`: `_validate`'s loops and `Any.parse`'s loop as methods with `while` loops, each proved equal to the `Walker` function.
- `MappingRules`, `SequenceRules`, `TraceRules`, `CombinatorRules`, `ScalarRules`: the rules of each schema form, proved about `Walker` and `Variants`.
- `Soundness`: on a well-formed schema, nothing but `ValidationError` escapes, and every value `clean` returns has the schema's shape.
- `Examples`: concrete schemas and inputs from `usage.py`, with the exact errors and trace strings they produce.

One might expect `_parse` not to fail once `_validate` has passed. The code does not keep that promise, and the model follows the code. After a successful validation pass, `_parse` can still raise a `ValidationError`, for:
- an impossible calendar date or datetime;
- a refusing condition;
- a `Number` out of bounds;
- an `Any` whose alternatives all fail.

`Soundness.ParseAfterValidate` proves that nothing *other* than a `ValidationError` can escape.

The `Datetime` pattern `(\.\d*)?Z?` is wider than the three `strptime` formats. A bare `Z`, a point without digits, and more than six fraction digits all pass validation. They are then reported as "is an invalid datetime" by the parse pass (`ScalarRules.PatternWiderThanFormats`).

## Model

| member | source | states |
|---|---|---|
| Errors.Prefixed | jsonschema/__init__.py:267-271 | prepending `current_trace` keeps value and message, extends the trace path at the front, and lets other exceptions through unchanged |
| Errors.PrefixedTwice | jsonschema/__init__.py:270 | prefixing by an inner then an outer path is prefixing once by outer followed by inner |
| Errors.PathTextAppend | jsonschema/__init__.py:280-284 | the text of a concatenated path is the concatenation of the texts |
| Errors.RenderPrefixed | jsonschema/__init__.py:270 | the structured trace renders to the string concatenation `f'{current_trace}{e.trace}'` |
| Values.IndexOf | jsonschema/__init__.py:276-279 | `k in d` is `IndexOf(d, k).Some?`; the index found is the first one carrying `k` |
| Values.Normalize | jsonschema/__init__.py:104-105 | the result is an int or a float; an int denotes exactly `m / 10^scale`; a float keeps the value, with a mantissa that is not a multiple of ten |
| Formats.StrptimeDate | jsonschema/__init__.py:131-135 | a date is produced only from a pattern string and is a real calendar date; every pattern string denoting a real date produces that date |
| Formats.Strptime | jsonschema/__init__.py:144-148 | a format yields a datetime exactly when the head is well formed, the tail fits the format, and the fields form a real date and clock time; that datetime carries the six fields the digits denote and the tail's microseconds |
| Formats.Microseconds | jsonschema/__init__.py:153-154 | `%f` reads its one to six digits right-padded with zeros to six, a value below one million |
| Formats.FormatTail | jsonschema/__init__.py:152-154 | the whole-seconds format takes no tail; `.%f` and `.%fZ` take a point, one to six digits and (for the second) a final `Z`, read as the digits padded to six |
| Formats.AppendZeros | jsonschema/__init__.py:153-154 | appending `k` zero digits multiplies the value by `10^k`, which is how padding turns `%f` digits into microseconds |
| Formats.StrptimeDatetime | jsonschema/__init__.py:150-163 | the first of the three formats that fits decides, each format tried only when the ones before it fail; no fit means no datetime |
| Errors.Render | jsonschema/__init__.py:237-240 | the trace string: the path's segments each followed by ` --> `, then the origin, with `Optional(…)` and `Any(…)` wrapping the inner traces; its properties are `Errors.RenderPrefixed`, `TraceRules.RenderedTrace` and the `Examples` text lemmas |
| Values.PyStr | jsonschema/__init__.py:63-64 | `str(v)`: a string is its own text; `ScalarRules.StringParse` states that `String.parse` yields it |
| Values.PyRepr | jsonschema/__init__.py:257-262 | `repr(v)` as `Constant` puts it in its message and trace; `ScalarRules.ConstantGate` and `Examples.NoConstantMatches` state its use |
| Variants.ValidateVariant | jsonschema/__init__.py:22-24 | every `validate` hook fails only with a `ValidationError` carrying the raw value and the class name as its trace (`invalid`); the per-variant gates are the `ScalarRules` lemmas |
| Variants.ParseVariant | jsonschema/__init__.py:101-163 | only the `Number`, `Date` and `Datetime` parse hooks can fail; a refusal carries the raw value and the class name |
| Variants.ParseNumber | jsonschema/__init__.py:101-105 | the result is an int or a float; every number parses; a string parses exactly when it is a number literal; failures are not `ValidationError`s |
| Variants.CheckBounds | jsonschema/__init__.py:109-113 | the parsed value is returned unchanged exactly when it is at least `min` and at most `max`; otherwise a `ValidationError` on the raw value |
| Variants.GetParsedValue | jsonschema/__init__.py:35-47 | the result is the parse hook's value or a failure; a failing parse hook fails first; every `ValidationError` carries the raw value and the class name |
| Walker.WrapOptional | jsonschema/__init__.py:211-212 | a `ValidationError` keeps value and message, and its trace becomes `Optional(<trace>)`; other exceptions are unchanged |
| Walker.Iterate | jsonschema/__init__.py:338-346 | what `for e in value` yields: the items of a list or tuple, the characters of a string, the keys of a dict; nothing else is iterable |
| Walker.Validate | jsonschema/__init__.py:265-316 | `_validate`; specified by `Engine.ValidateTree` (the loop form equals it), `TraceRules.ValidatePrefix`, the `MappingRules`, `SequenceRules` and `CombinatorRules` lemmas and `Soundness.ValidateNeverCrashes` |
| Walker.Parse | jsonschema/__init__.py:319-347 | `_parse`; specified by `TraceRules.ParsePrefix`, `MappingRules.ParsedKeys`, `SequenceRules.ListKeepsLength`, `CombinatorRules.OptionalParses` and `Soundness.ParseAfterValidate` |
| Walker.ParseAny | jsonschema/__init__.py:242-250 | `Any.parse`; specified by `Engine.ResolveAny`, `CombinatorRules.AnyFirstDecisive`, `CombinatorRules.AnyAllRejected` and `CombinatorRules.AnyRejectsIff` |
| Walker.Attempt | jsonschema/__init__.py:245-247 | one alternative of `Any.parse`: `_validate` then `_parse`; `CombinatorRules.AnySkipsRejected` states what a rejection does |
| Walker.Clean | jsonschema/__init__.py:350-355 | `clean(schema)(v)`; specified by `Soundness.CleanIsSound` and the `Examples` lemmas |
| Walker.MissingKey | jsonschema/__init__.py:275-277 | `None` exactly when no required key is missing; otherwise the first missing required key in the schema's order |
| Walker.ParseFields | jsonschema/__init__.py:326-334 | the parsed dict has exactly the schema's keys, in the schema's order |
| Walker.ParseItems | jsonschema/__init__.py:338-341 | one parsed element per input element |
| Walker.ParseSlots | jsonschema/__init__.py:342-346 | one parsed element per input element; success implies the input is no longer than the tuple schema |
| Engine.ValidateTree | jsonschema/__init__.py:265-316 | the loop-based `_validate` returns exactly the validation-pass outcome `Validate` |
| Engine.ValidateObject | jsonschema/__init__.py:272-285 | the `dict` branch's two loops (required keys in schema order, then the input's entries in input order) return exactly `Validate` |
| Engine.ValidateList | jsonschema/__init__.py:286-298 | the `list` branch's checks and its loop over the elements return exactly `Validate` |
| Engine.ValidateTuple | jsonschema/__init__.py:299-315 | the `tuple` branch's arity check and its loop over the slots return exactly `Validate` |
| Engine.ResolveAny | jsonschema/__init__.py:242-250 | the loop over alternatives, collecting errors, returns exactly `Parse` of the `Any` schema |
| MappingRules.NotAnObject | jsonschema/__init__.py:273-274 | a non-dict input fails with "is not an object" at `Object` |
| MappingRules.MissingRequiredKey | jsonschema/__init__.py:275-277 | the first missing non-`Optional` key in schema order is reported, before any value is checked |
| MappingRules.EntriesAllPass | jsonschema/__init__.py:278-285 | the values pass exactly when every input entry is either outside the schema or validates against its sub-schema |
| MappingRules.EntriesFirstFailure | jsonschema/__init__.py:278-284 | values are checked in input order; the first failing entry's failure is the result |
| MappingRules.GetSkipsOtherKey | jsonschema/__init__.py:329 | an entry under another key changes neither `get(key)` nor `key in d` |
| MappingRules.EntriesSkipExtraKey | jsonschema/__init__.py:279 | an input key the schema lacks is skipped by the validation pass |
| MappingRules.FieldsSkipExtraKey | jsonschema/__init__.py:327-334 | an input key the schema lacks does not change the parse pass |
| MappingRules.ExtraKeyIgnored | jsonschema/__init__.py:272-285 | adding a key the schema lacks changes neither the missing key, nor whether validation passes, nor the parsed result |
| MappingRules.MissingKeyDependsOnKeys | jsonschema/__init__.py:275-277 | the missing-key check depends only on which required keys are present |
| MappingRules.FieldsParsed | jsonschema/__init__.py:327-334 | each parsed field is the parse of `value.get(key)` against that field's schema, with `Object(key:…)` in front |
| MappingRules.ParsedKeys | jsonschema/__init__.py:326-334 | parsing a dict yields exactly the schema's keys in order; an absent `Optional` key yields `None` |
| SequenceRules.NotASequence | jsonschema/__init__.py:292-293 | a non-list/tuple input fails with "is not a list or tuple" at `List`, and at `Tuple` (lines 300-301) |
| SequenceRules.OverlongListSchema | jsonschema/__init__.py:287-291 | a list schema of two or more element schemas raises `TypeError` for every input |
| SequenceRules.EmptyListSchema | jsonschema/__init__.py:294-295 | `[]` accepts every list or tuple and parses it to `[]` (lines 336-337) |
| SequenceRules.ItemsAllPass | jsonschema/__init__.py:296-298 | a list passes exactly when every element, at its own index, passes |
| SequenceRules.ItemsFirstFailure | jsonschema/__init__.py:296-297 | elements are checked in index order; the first failure decides |
| SequenceRules.ListKeepsLength | jsonschema/__init__.py:338-341 | `[s]` parses a sequence to a list of the same length |
| SequenceRules.TupleArity | jsonschema/__init__.py:302-308 | a length mismatch fails at `Tuple` with "has too few/many elements (it requires n)"; "few" exactly when the input is shorter |
| SequenceRules.SlotsAllPass | jsonschema/__init__.py:309-315 | a tuple of the right length passes exactly when each position passes against its own slot |
| SequenceRules.SlotsFirstFailure | jsonschema/__init__.py:309-314 | positions are checked in order; the first failure decides |
| SequenceRules.TupleOnePerSlot | jsonschema/__init__.py:342-346 | a tuple that validates and parses yields a tuple with one element per slot |
| TraceRules.PrefixOutcomeTwice | jsonschema/__init__.py:270 | adding two prefixes to an outcome is adding their concatenation |
| TraceRules.PrefixResultTwice | jsonschema/__init__.py:324 | the same for a parse result |
| TraceRules.ValidatePrefix | jsonschema/__init__.py:265-316 | validating at `current_trace` p is validating at the root and then prefixing p to the failure's trace |
| TraceRules.EntriesPrefix | jsonschema/__init__.py:278-284 | the same for the values of a dict |
| TraceRules.ItemsPrefix | jsonschema/__init__.py:296-297 | the same for the elements of a list |
| TraceRules.SlotsPrefix | jsonschema/__init__.py:309-314 | the same for the positions of a tuple |
| TraceRules.ParsePrefix | jsonschema/__init__.py:319-347 | parsing at `current_trace` p is parsing at the root and then prefixing p to the failure's trace |
| TraceRules.AnyPrefix | jsonschema/__init__.py:242-250 | the same for `Any`, whose traces from the alternatives are not prefixed |
| TraceRules.FieldsPrefix | jsonschema/__init__.py:327-334 | the same for the fields of a dict |
| TraceRules.ParseItemsPrefix | jsonschema/__init__.py:338-341 | the same for the elements of a list |
| TraceRules.ParseSlotsPrefix | jsonschema/__init__.py:343-346 | the same for the positions of a tuple |
| TraceRules.RenderedTrace | jsonschema/__init__.py:270 | as strings, the trace of a failure found at `current_trace` is `current_trace` followed by the root trace |
| TraceRules.ListElementTrace | jsonschema/__init__.py:296-297 | a failing list element carries `List(index:k) --> ` in front of its own trace |
| TraceRules.TupleElementTrace | jsonschema/__init__.py:309-314 | a failing tuple position carries `Tuple(index:k) --> ` in front of its own trace |
| TraceRules.ObjectValueTrace | jsonschema/__init__.py:278-284 | a failing dict value carries `Object(key:'k') --> ` in front of its own trace |
| CombinatorRules.OptionalOfNone | jsonschema/__init__.py:214-216 | `None` passes `Optional(s)` and parses to `None` without consulting `s` (lines 223-224) |
| CombinatorRules.OptionalValidates | jsonschema/__init__.py:214-220 | on anything else, `Optional(s)` passes exactly when `s` does; a rejection keeps value and message and moves the root trace inside `Optional(…)`; other exceptions pass through |
| CombinatorRules.OptionalParses | jsonschema/__init__.py:222-228 | the parse pass of `Optional(s)` on anything else is that of `s`, with a rejection's trace wrapped in `Optional(…)` |
| CombinatorRules.AnyValidatePasses | jsonschema/__init__.py:29-30 | `Any` never fails the validation pass |
| CombinatorRules.RejectionTraces | jsonschema/__init__.py:243-249 | one collected trace per rejected alternative |
| CombinatorRules.RejectionTraceAt | jsonschema/__init__.py:248-249 | the j-th collected trace is the j-th alternative's own rejection trace |
| CombinatorRules.AnySkipsRejected | jsonschema/__init__.py:244-249 | alternatives that reject are skipped, their traces appended in order |
| CombinatorRules.AnyFirstDecisive | jsonschema/__init__.py:244-247 | the first alternative, in declared order, that does not reject decides the result |
| CombinatorRules.AnyAllRejected | jsonschema/__init__.py:250 | when every alternative rejects, the error has the input as value, "doesn't meet any allowed criterion" as message, and `Any(…)` over the alternatives' traces |
| CombinatorRules.AnyRejectsIff | jsonschema/__init__.py:242-250 | `Any` rejects exactly when every alternative rejects |
| ScalarRules.StringGate | jsonschema/__init__.py:59-61 | a strict `String` accepts exactly the strings and refuses others with "is not a string"; a lenient one accepts anything |
| ScalarRules.StringParse | jsonschema/__init__.py:63-64 | `String` parses any value to the string `str(value)`, and leaves a string unchanged |
| ScalarRules.RegexGate | jsonschema/__init__.py:73-79 | `RegexString` accepts exactly the strings its pattern matches, refusing others with "doesn't match pattern …", and parses to the input |
| ScalarRules.NullGate | jsonschema/__init__.py:120-122 | `Null` accepts exactly `None`, refusing others with "is not null" |
| ScalarRules.ConstantGate | jsonschema/__init__.py:257-262 | `Constant(c)` accepts exactly `c`; the message and trace carry `repr(c)` |
| ScalarRules.BooleanGate | jsonschema/__init__.py:189-195 | booleans always pass; strict mode refuses every other value with "is not boolean"; lenient mode accepts the tokens and refuses the rest with "can't be interpreted as boolean" |
| ScalarRules.BooleanParse | jsonschema/__init__.py:197-202 | booleans are kept, false tokens become `False`, everything else (every true token among them) becomes `True` |
| ScalarRules.NumberGate | jsonschema/__init__.py:91-99 | numbers (bools included) always pass; strict mode refuses the rest with "is not a number"; lenient mode accepts exactly the strings of `^\d+(\.\d+)?$` and refuses other strings with "is not a validly formatted number" |
| ScalarRules.DateGate | jsonschema/__init__.py:125-129 | `Date` accepts exactly the strings of `^\d{4}-\d{2}-\d{2}$`; anything else fails with "doesn't match pattern …" |
| ScalarRules.DatetimeGate | jsonschema/__init__.py:138-142 | `Datetime` accepts exactly the strings of its pattern; anything else fails with "doesn't match pattern …" |
| ScalarRules.NormalizeWhole | jsonschema/__init__.py:104-105 | a whole decimal becomes the int it denotes |
| ScalarRules.NormalizeFraction | jsonschema/__init__.py:104-105 | a decimal that is not whole stays a float |
| ScalarRules.NumberParseExact | jsonschema/__init__.py:101-105 | a lenient number string parses to the int it denotes when whole, otherwise to the float of the same value |
| ScalarRules.NumberParsesWhatItAccepts | jsonschema/__init__.py:91-105 | every value `Number` accepts parses to an int or a float without raising |
| ScalarRules.ConditionRefuses | jsonschema/__init__.py:35-46 | a refusing condition sees the parsed value; the error reports the raw input with the condition's reason, or "doesn't meet the validation criterion" |
| ScalarRules.ConditionAccepts | jsonschema/__init__.py:35-47 | an accepting condition leaves the parsed value as the result |
| ScalarRules.ParseFailureFirst | jsonschema/__init__.py:36 | a parse failure is reported before any condition |
| ScalarRules.NoCondition | jsonschema/__init__.py:37 | `Null`, `Boolean` and `Constant` have no condition; `get_parsed_value` is their parse |
| ScalarRules.NumberBounds | jsonschema/__init__.py:107-113 | with the condition satisfied, the parsed int or float is returned exactly when it lies within the inclusive bounds; below the minimum and above the maximum give distinct messages, the minimum checked first |
| ScalarRules.ConditionBeforeBounds | jsonschema/__init__.py:107-108 | a refusing condition wins over an out-of-range value |
| ScalarRules.DateParse | jsonschema/__init__.py:131-135 | a pattern string parses to the date its digits denote when that is a real date, and otherwise fails with "is an invalid date" |
| ScalarRules.DatetimeParse | jsonschema/__init__.py:150-163 | a datetime is produced exactly when one of the three formats fits, and is a real date and clock time; otherwise the error is "is an invalid datetime" |
| ScalarRules.PatternWiderThanFormats | jsonschema/__init__.py:139-163 | a bare `Z`, a point without digits, or more than six fraction digits pass the pattern and fail the parse pass with "is an invalid datetime" |
| ScalarRules.ZoneMarkerIgnored | jsonschema/__init__.py:150-163 | a `Z` after the fraction digits changes neither whether the text parses nor the datetime it yields |
| Soundness.ValidateNeverCrashes | jsonschema/__init__.py:265-316 | on a well-formed schema the validation pass raises only `ValidationError` |
| Soundness.VariantParseAfterValidate | jsonschema/__init__.py:35-47 | a value a variant's `validate` accepts makes `get_parsed_value` raise only `ValidationError`, and yields a value of the variant's kind |
| Soundness.NumberAfterValidate | jsonschema/__init__.py:101-113 | for `Number`: no other exception, and the result is a number within the bounds |
| Soundness.DateAfterValidate | jsonschema/__init__.py:131-135 | for `Date`: no other exception, and the result is a real calendar date |
| Soundness.DatetimeAfterValidate | jsonschema/__init__.py:150-163 | for `Datetime`: no other exception, and the result is a real date and clock time |
| Soundness.ParseAfterValidate | jsonschema/__init__.py:319-347 | after a successful validation pass, the parse pass raises only `ValidationError`, and its result has the schema's shape |
| Soundness.CleanIsSound | jsonschema/__init__.py:350-355 | `clean` on a well-formed schema raises only `ValidationError`, and returns a value of the schema's shape |
| Soundness.FieldsAfterValidate | jsonschema/__init__.py:326-334 | after validation, each parsed field has its sub-schema's shape |
| Soundness.ItemsAfterValidate | jsonschema/__init__.py:338-341 | after validation, each parsed element has the element schema's shape |
| Soundness.SlotsAfterValidate | jsonschema/__init__.py:343-346 | after validation, each parsed position has its slot's shape |
| Soundness.AnyAfterValidate | jsonschema/__init__.py:242-250 | `Any` raises only `ValidationError`, and returns a value shaped like one of its alternatives |
| Examples.NestedMinimum | usage.py:14-22 | `{"nest": {"nest": [1, -1]}}` against `{"nest": {"nest": [Number(min=0)]}}` passes validation, then fails on `-1` with "is less than the minimum: 0" and trace `Object(key:'nest') --> Object(key:'nest') --> List(index:1) --> Number` |
| Examples.NestedMinimumText | usage.py:14-22 | the rendered trace string of that failure |
| Examples.MixedFailure | usage.py:112-136 | the composite input fails at `[3, 4, None]` with "doesn't meet any allowed criterion" |
| Examples.MixedFailureText | usage.py:112-136 | its trace renders as `Object(key:'mixed') --> Optional(List(index:2) --> Any(String, Number, Boolean, List(index:0) --> Null))` |
| Examples.TupleTooMany | usage.py:138-163 | `["butwait", 1000, 1000]` against `(String(), Number())` fails with "has too many elements (it requires 2)" |
| Examples.FalseToken | usage.py:31 | the lenient `Boolean` turns `'false'` into `False`; the strict one refuses it |
| Examples.NoConstantMatches | usage.py:165-189 | `"BARZ"` against the three `Constant`s fails with `Any(Constant('FOO'), Constant('BAR'), Constant('BAZ'))` |
| Examples.TrueIsOne | usage.py:23-28 | `True` passes `Number()` and parses to the int `1` |
| Examples.SignedTextRefused | jsonschema/__init__.py:83-99 | `"-1"` is refused by the lenient `Number` as "is not a validly formatted number" |
| Examples.NumberBeforeString | jsonschema/__init__.py:242-250 | `Any(Number(), String())` turns `"42"` into `42`: the first alternative wins |
| Examples.FractionWithZone | jsonschema/__init__.py:150-163 | `'2000-01-02T10:10:10.123Z'` fits only the third format and comes out as `datetime(2000, 1, 2, 10, 10, 10, 123000)` |
| Examples.NoThirtiethOfFebruary | jsonschema/__init__.py:125-135 | `YYYY-02-30` matches the `Date` pattern and is then reported as "is an invalid date" |

## Left out

- Float arithmetic. Numbers are exact decimals: `float(value)` rounding and `is_integer` on rounded values are not modelled, and neither is the `decimal.Decimal` passthrough of `Number.parse`.
- Variants.ParseNumber: float overflow is not modelled. `Number.validate` accepts every int, and `float(value)` raises `OverflowError` for an int beyond the float range, so `clean(Number())(10**400)` raises it in the source; here it parses exactly. `Soundness.NumberAfterValidate`, `Soundness.ParseAfterValidate` and `Soundness.CleanIsSound` hold for this exact-number model only.
- Variants.ParseNumber: `Number.parse` is modelled only on strings its validation accepts. `float()` also reads signs, exponents, spaces, `inf` and `nan` (`float('-1')` is `-1.0`); here every string that is not a digit literal is a `ValueError`. `clean` never passes such a string to the parse pass.
- Walker.Parse: on values the validation pass rejects, the parse pass follows Python only where this model has the value: a dict schema with keys on a non-dict is an `AttributeError`, and a list or tuple schema on a non-iterable a `TypeError`.
- Values.Normalize: integral means every fractional digit is zero, not "the nearest float is whole".
- Number bounds are ints. `min` and `max` may be any Python number in the source; here they are `Option<int>`.
- `RegexString` patterns are an abstract predicate `string -> bool`; `re.compile` is not modelled.
- The fixed patterns are written over ASCII digits. Python's `$` before a trailing newline and Unicode `\d` are not modelled.
- `strptime` is replaced by its field rules:
  - year at least 1;
  - month 1–12;
  - day within the month, with leap years;
  - hour 0–23, minute 0–59, second 0–59;
  - `%f` of one to six digits.

  Its leniency on inputs that do not match the pattern (single-digit fields, spaces) is not modelled. `Date` and `Datetime` only parse strings their pattern accepted.
- User conditions are total functions returning `Satisfied` or `Unsatisfied(reason)`. A raised exception with arguments is `Unsatisfied(Some(first argument))`, without arguments or a false value `Unsatisfied(None)`. Truthiness of arbitrary return values is not modelled.
- Equality is structural on the model's values. Python's cross-type equality (`1 == True == 1.0`) in `Constant` and in the `Boolean` token lookup is not modelled.
- `ValidationError.__str__` and `__repr__` are left out. `repr()` and `str()` of values are approximations: a float is printed with its exact decimal digits, and string escaping is not modelled.
- The constructor `assert`s of `Optional` and `Any` are left out: the schema is a closed datatype, so they cannot fail.
- A schema object of another type (the final `TypeError` of `_validate` and `_parse`) cannot be written, for the same reason.
- Dicts are sequences of pairs. Input dicts are looked up at their first entry with the key; Python dicts have unique keys. The soundness lemmas assume the schema's keys are distinct, as a Python dict's are.
- `usage.py` as a script (its prints and `__main__`) is left out. Its schemas and inputs appear only as the concrete cases in `Examples`.
- Mutation of the caught `ValidationError` (`e.trace = …; raise e`) is modelled as building a new error with the longer trace: no caller keeps the old object.

/**
 * Concrete cases: the nested trace of a bounds failure, the composite trace
 * of an `Optional` list of `Any` alternatives, tuple arity, lenient number
 * and boolean tokens, and `Any` over `Constant`s.
 */
module Examples {
  import opened Wrappers
  import opened Values
  import opened Errors
  import opened Variants
  import opened Walker
  import opened Formats

  function Num(lo: Option<int>): Schema {
    Scalar(Number(lo, None, false, Unconditional))
  }

  /** `{"nest": {"nest": [Number(min=0)]}}` */
  function NestSchema(): Schema {
    Dict([("nest", Dict([("nest", List([Num(Some(0))]))]))])
  }

  /** `{"nest": {"nest": [1, -1]}}` */
  function NestInput(): Value {
    VDict([("nest", VDict([("nest", VList([VInt(1), VInt(-1)]))]))])
  }

  lemma BelowMinimum()
    ensures GetParsedValue(Number(Some(0), None, false, Unconditional), VInt(-1))
         == Err(Invalid(ValidationError(VInt(-1), "is less than the minimum: 0", Trace([], Named("Number")))))
  {
    var t := Number(Some(0), None, false, Unconditional);
    assert t.condition(VInt(-1)) == Satisfied;
    assert IntToString(0) == "0" by {
      assert NatToString(0) == [Digit(0)];
    }
    assert "is less than the minimum: " + IntToString(0) == "is less than the minimum: 0";
    assert CheckBounds(t, VInt(-1), VInt(-1)) == Err(Refuse(t, VInt(-1), "is less than the minimum: 0"));
  }

  /** The validation pass accepts the input: `-1` is a number. */
  lemma NestValidates()
    ensures Validate(NestInput(), NestSchema(), []) == Pass
  {
    var n := Num(Some(0));
    var inner := List([n]);
    var mid := Dict([("nest", inner)]);
    var s := NestSchema();
    var items := [VInt(1), VInt(-1)];
    var vm := VDict([("nest", VList(items))]);
    var v := NestInput();
    var p2 := [ObjectKey("nest"), ObjectKey("nest")];
    assert ValidateItems(items, inner, p2, 2) == Pass;
    assert Validate(items[1], n, p2 + [ListIndex(1)]) == Pass;
    assert ValidateItems(items, inner, p2, 1) == Pass;
    assert Validate(items[0], n, p2 + [ListIndex(0)]) == Pass;
    assert ValidateItems(items, inner, p2, 0) == Pass;
    assert Validate(VList(items), inner, p2) == Pass;
    assert [ObjectKey("nest")] + [ObjectKey("nest")] == p2;
    assert Keys(vm.entries)[0] == "nest";
    assert MissingKey(mid.fields, vm.entries) == None;
    assert ValidateEntries(vm.entries, mid, [ObjectKey("nest")]) == Pass;
    assert Validate(vm, mid, [ObjectKey("nest")]) == Pass;
    assert [] + [ObjectKey("nest")] == [ObjectKey("nest")];
    assert Keys(v.entries)[0] == "nest";
    assert MissingKey(s.fields, v.entries) == None;
    assert ValidateEntries(v.entries, s, []) == Pass;
  }

  /**
   * The parse pass then reports `-1` below the minimum, with the raw value
   * and the path through both dicts and the list index.
   */
  lemma NestedMinimum()
    ensures Clean(NestInput(), NestSchema())
         == Err(Invalid(ValidationError(VInt(-1), "is less than the minimum: 0",
              Trace([ObjectKey("nest"), ObjectKey("nest"), ListIndex(1)], Named("Number")))))
  {
    var s := NestSchema();
    var vm := VDict([("nest", VList([VInt(1), VInt(-1)]))]);
    var v := NestInput();
    var e := ValidationError(VInt(-1), "is less than the minimum: 0",
      Trace([ObjectKey("nest"), ObjectKey("nest"), ListIndex(1)], Named("Number")));
    NestValidates();
    NestedMiddleFails();
    assert [] + [ObjectKey("nest")] == [ObjectKey("nest")];
    assert Get(v.entries, "nest") == vm;
    assert ParseFields(v.entries, s, [], 0) == Err(Invalid(e));
    assert Parse(v, s, []) == Err(Invalid(e));
  }

  /** The middle dict: its key `nest` leads to the failing list. */
  lemma NestedMiddleFails()
    ensures Parse(VDict([("nest", VList([VInt(1), VInt(-1)]))]), Dict([("nest", List([Num(Some(0))]))]), [ObjectKey("nest")])
         == Err(Invalid(ValidationError(VInt(-1), "is less than the minimum: 0",
              Trace([ObjectKey("nest"), ObjectKey("nest"), ListIndex(1)], Named("Number")))))
  {
    var mid := Dict([("nest", List([Num(Some(0))]))]);
    var items := [VInt(1), VInt(-1)];
    var vm := VDict([("nest", VList(items))]);
    var p2 := [ObjectKey("nest"), ObjectKey("nest")];
    var e := ValidationError(VInt(-1), "is less than the minimum: 0", Trace(p2 + [ListIndex(1)], Named("Number")));
    NestedListFails();
    assert [ObjectKey("nest")] + [ObjectKey("nest")] == p2;
    assert Get(vm.entries, "nest") == VList(items);
    assert ParseFields(vm.entries, mid, [ObjectKey("nest")], 0) == Err(Invalid(e));
  }

  /** The innermost list: `1` parses, then `-1` is below the minimum. */
  lemma NestedListFails()
    ensures var p2 := [ObjectKey("nest"), ObjectKey("nest")];
      Parse(VList([VInt(1), VInt(-1)]), List([Num(Some(0))]), p2)
        == Err(Invalid(ValidationError(VInt(-1), "is less than the minimum: 0", Trace(p2 + [ListIndex(1)], Named("Number")))))
  {
    var n := Num(Some(0));
    var inner := List([n]);
    var items := [VInt(1), VInt(-1)];
    var p2 := [ObjectKey("nest"), ObjectKey("nest")];
    var path := p2 + [ListIndex(1)];
    var e := ValidationError(VInt(-1), "is less than the minimum: 0", Trace(path, Named("Number")));
    BelowMinimum();
    assert n.variant.condition(VInt(1)) == Satisfied;
    assert Parse(items[0], n, p2 + [ListIndex(0)]) == Ok(VInt(1));
    assert Parse(items[1], n, path) == Err(Invalid(e));
    assert ParseItems(items, inner, p2, 1) == Err(Invalid(e));
    assert ParseItems(items, inner, p2, 0) == Err(Invalid(e));
  }

  lemma IndexText()
    ensures PathText([ListIndex(1)]) == "List(index:1)" + TraceSep
  {
    assert NatToString(1) == "1";
    assert PathText([]) == "";
  }

  lemma KeyText()
    ensures SegmentText(ObjectKey("nest")) == "Object(key:'nest')"
  {
  }

  /** The rendered trace of that failure. */
  lemma NestedMinimumText()
    ensures Render(Trace([ObjectKey("nest"), ObjectKey("nest"), ListIndex(1)], Named("Number")))
         == "Object(key:'nest')" + TraceSep + "Object(key:'nest')" + TraceSep + "List(index:1)" + TraceSep + "Number"
  {
    var path := [ObjectKey("nest"), ObjectKey("nest"), ListIndex(1)];
    IndexText();
    KeyText();
    assert path[1..][1..] == [ListIndex(1)];
    var k, i := "Object(key:'nest')", "List(index:1)";
    assert PathText(path) == k + TraceSep + (k + TraceSep + (i + TraceSep));
  }

  const Str: Schema := Scalar(String(true, Unconditional))
  const Bool: Schema := Scalar(Boolean(true))
  const NullList: Schema := List([Scalar(Null)])

  /** `Any(String(), Number(), Boolean(), [Null()])` */
  function Mixed(): Schema {
    Any([Str, Num(None), Bool, NullList])
  }

  /** `{"mixed": Optional([Any(String(), Number(), Boolean(), [Null()])])}` */
  function MixedSchema(): Schema {
    Dict([("mixed", Optional(List([Mixed()])))])
  }

  /** `{"mixed": [1, 2, [3, 4, None]]}` */
  function MixedInput(): Value {
    VDict([("mixed", VList([VInt(1), VInt(2), VList([VInt(3), VInt(4), VNull])]))])
  }

  /** An int is refused by the strict `String` and accepted, unchanged, by `Number`. */
  lemma IntPicksNumber(i: int, p: seq<Segment>)
    ensures Parse(VInt(i), Mixed(), p) == Ok(VInt(i))
  {
    var alts := Mixed().alternatives;
    assert Clean(VInt(i), Str) == Err(Invalid(ValidationError(VInt(i), "is not a string", Trace([], Named("String")))));
    assert ParseVariant(Number(None, None, false, Unconditional), VInt(i)) == Ok(VInt(i));
    assert Unconditional(VInt(i)) == Satisfied;
    assert Clean(VInt(i), Num(None)) == Ok(VInt(i));
    assert ParseAny(VInt(i), Mixed(), p, 1, [Trace([], Named("String"))]) == Ok(VInt(i));
  }

  /** What each alternative of `Mixed()` does with `[3, 4, None]`. */
  lemma EachAlternativeRefusesList()
    ensures var w := VList([VInt(3), VInt(4), VNull]);
      && Clean(w, Str) == Err(Invalid(ValidationError(w, "is not a string", Trace([], Named("String")))))
      && Clean(w, Num(None)) == Err(Invalid(ValidationError(w, "is not a number", Trace([], Named("Number")))))
      && Clean(w, Bool) == Err(Invalid(ValidationError(w, "is not boolean", Trace([], Named("Boolean")))))
      && Clean(w, NullList) == Err(Invalid(ValidationError(VInt(3), "is not null", Trace([ListIndex(0)], Named("Null")))))
  {
    NullListRefusesList();
  }

  /** `[Null()]` stops at the first element of `[3, 4, None]`. */
  lemma NullListRefusesList()
    ensures Clean(VList([VInt(3), VInt(4), VNull]), NullList)
         == Err(Invalid(ValidationError(VInt(3), "is not null", Trace([ListIndex(0)], Named("Null")))))
  {
    var items := [VInt(3), VInt(4), VNull];
    var t3 := Trace([ListIndex(0)], Named("Null"));
    assert [] + [ListIndex(0)] == [ListIndex(0)];
    assert Validate(VInt(3), Scalar(Null), [ListIndex(0)]) == Fail(Invalid(ValidationError(VInt(3), "is not null", t3)));
    assert ValidateItems(items, NullList, [], 0) == Fail(Invalid(ValidationError(VInt(3), "is not null", t3)));
    assert Validate(VList(items), NullList, []) == ValidateItems(items, NullList, [], 0);
  }

  /** `[3, 4, None]` is refused by every alternative, by `[Null()]` at its first element. */
  lemma ListRefusedByAll(p: seq<Segment>)
    ensures var w := VList([VInt(3), VInt(4), VNull]);
      Parse(w, Mixed(), p)
        == Err(Invalid(ValidationError(w, AnyMessage, Trace(p, InAny([
             Trace([], Named("String")), Trace([], Named("Number")), Trace([], Named("Boolean")),
             Trace([ListIndex(0)], Named("Null"))])))))
  {
    var w := VList([VInt(3), VInt(4), VNull]);
    var t0, t1, t2 := Trace([], Named("String")), Trace([], Named("Number")), Trace([], Named("Boolean"));
    var t3 := Trace([ListIndex(0)], Named("Null"));
    EachAlternativeRefusesList();
    var s := Mixed();
    assert ParseAny(w, s, p, 4, [t0, t1, t2, t3])
        == Err(Invalid(ValidationError(w, AnyMessage, Trace(p, InAny([t0, t1, t2, t3])))));
    assert s.alternatives == [Str, Num(None), Bool, NullList];
    assert [t0, t1, t2] + [t3] == [t0, t1, t2, t3];
    assert [t0, t1] + [t2] == [t0, t1, t2];
    assert [t0] + [t1] == [t0, t1];
    assert ParseAny(w, s, p, 3, [t0, t1, t2]) == ParseAny(w, s, p, 4, [t0, t1, t2, t3]);
    assert ParseAny(w, s, p, 2, [t0, t1]) == ParseAny(w, s, p, 3, [t0, t1, t2]);
    assert ParseAny(w, s, p, 1, [t0]) == ParseAny(w, s, p, 2, [t0, t1]);
    assert [] + [t0] == [t0];
    assert ParseAny(w, s, p, 0, []) == ParseAny(w, s, p, 1, [t0]);
  }

  /** Every element of `[1, 2, [3, 4, None]]` passes `Any` in the validation pass. */
  lemma MixedValidates()
    ensures Validate(MixedInput(), MixedSchema(), []) == Pass
  {
    var l := List([Mixed()]);
    var items := [VInt(1), VInt(2), VList([VInt(3), VInt(4), VNull])];
    assert ValidateItems(items, l, [], 0) == Pass;
    assert Validate(VList(items), Optional(l), [ObjectKey("mixed")]) == Pass;
    assert Keys(MixedInput().entries)[0] == "mixed";
    assert MissingKey(MixedSchema().fields, MixedInput().entries) == None;
    assert ValidateEntries(MixedInput().entries, MixedSchema(), []) == Pass;
  }

  /** The trace `Any` reports for `[3, 4, None]` at index 2. */
  function MixedTrace(): Trace {
    Trace([ListIndex(2)], InAny([
      Trace([], Named("String")), Trace([], Named("Number")), Trace([], Named("Boolean")),
      Trace([ListIndex(0)], Named("Null"))]))
  }

  lemma MixedListFails()
    ensures var w := VList([VInt(3), VInt(4), VNull]);
      Parse(VList([VInt(1), VInt(2), w]), List([Mixed()]), [])
        == Err(Invalid(ValidationError(w, AnyMessage, MixedTrace())))
  {
    var w := VList([VInt(3), VInt(4), VNull]);
    var l := List([Mixed()]);
    var items := [VInt(1), VInt(2), w];
    var e := ValidationError(w, AnyMessage, MixedTrace());
    assert [] + [ListIndex(0)] == [ListIndex(0)];
    IntPicksNumber(1, [ListIndex(0)]);
    MixedTailFails();
    assert ParseItems(items, l, [], 0) == Err(Invalid(e));
    assert Iterate(VList(items)) == Some(items);
  }

  /** The third element `[3, 4, None]` meets no alternative. */
  lemma MixedThirdFails()
    ensures var w := VList([VInt(3), VInt(4), VNull]);
      ParseItems([VInt(1), VInt(2), w], List([Mixed()]), [], 2)
        == Err(Invalid(ValidationError(w, AnyMessage, MixedTrace())))
  {
    assert [] + [ListIndex(2)] == [ListIndex(2)];
    ListRefusedByAll([ListIndex(2)]);
  }

  /** From the second element on: `2` is a number, then the third element fails. */
  lemma MixedTailFails()
    ensures var w := VList([VInt(3), VInt(4), VNull]);
      ParseItems([VInt(1), VInt(2), w], List([Mixed()]), [], 1)
        == Err(Invalid(ValidationError(w, AnyMessage, MixedTrace())))
  {
    assert [] + [ListIndex(1)] == [ListIndex(1)];
    IntPicksNumber(2, [ListIndex(1)]);
    MixedThirdFails();
  }

  /**
   * The composite failure: the third element meets no alternative, and its
   * trace runs through the key, the `Optional`, the list index and the `Any`
   * with one trace per alternative.
   */
  lemma MixedFailure()
    ensures Clean(MixedInput(), MixedSchema())
         == Err(Invalid(ValidationError(VList([VInt(3), VInt(4), VNull]), AnyMessage,
              Trace([ObjectKey("mixed")], InOptional(MixedTrace())))))
  {
    var w := VList([VInt(3), VInt(4), VNull]);
    var items := [VInt(1), VInt(2), w];
    MixedValidates();
    MixedListFails();
    assert Get(MixedInput().entries, "mixed") == VList(items);
    assert [] + [ObjectKey("mixed")] == [ObjectKey("mixed")];
  }

  /** The text inside `Any(...)`: each alternative's trace, joined by `, `. */
  lemma AnyText()
    ensures var alts := MixedTrace().origin.alternatives;
      Join(seq(|alts|, j requires 0 <= j < |alts| => Render(alts[j])), ", ")
        == "String" + ", " + ("Number" + ", " + ("Boolean" + ", " + ("List(index:0)" + TraceSep + "Null")))
  {
    var alts := MixedTrace().origin.alternatives;
    var texts := seq(|alts|, j requires 0 <= j < |alts| => Render(alts[j]));
    assert PathText([]) == "";
    assert PathText([ListIndex(0)]) == "List(index:0)" + TraceSep by {
      assert NatToString(0) == "0";
    }
    assert texts[0] == "String" && texts[1] == "Number" && texts[2] == "Boolean";
    assert texts[3] == "List(index:0)" + TraceSep + "Null";
    assert texts[1..][1..] == [texts[2], texts[3]];
    assert texts[1..][1..][1..] == [texts[3]];
    assert Join([texts[3]], ", ") == texts[3];
    assert Join(texts[1..][1..], ", ") == "Boolean" + ", " + texts[3];
    assert Join(texts[1..], ", ") == "Number" + ", " + ("Boolean" + ", " + texts[3]);
    assert Join(texts, ", ") == "String" + ", " + ("Number" + ", " + ("Boolean" + ", " + texts[3]));
  }

  lemma AnyTraceText()
    ensures Render(MixedTrace())
         == "List(index:2)" + TraceSep
          + ("Any(" + ("String" + ", " + ("Number" + ", " + ("Boolean" + ", " + ("List(index:0)" + TraceSep + "Null")))) + ")")
  {
    AnyText();
    assert PathText([ListIndex(2)]) == "List(index:2)" + TraceSep by {
      assert NatToString(2) == "2";
      assert PathText([]) == "";
    }
  }

  /**
   * The rendered composite trace:
   * `Object(key:'mixed') --> Optional(List(index:2) --> Any(String, Number, Boolean, List(index:0) --> Null))`.
   */
  lemma MixedFailureText()
    ensures Render(Trace([ObjectKey("mixed")], InOptional(MixedTrace())))
         == "Object(key:'mixed')" + TraceSep
          + ("Optional(" + ("List(index:2)" + TraceSep
          + ("Any(" + ("String" + ", " + ("Number" + ", " + ("Boolean" + ", " + ("List(index:0)" + TraceSep + "Null")))) + ")")) + ")")
  {
    AnyTraceText();
    assert PathText([ObjectKey("mixed")]) == "Object(key:'mixed')" + TraceSep by {
      assert PathText([]) == "";
    }
  }

  /** `(String(), Number())` refuses `["butwait", 1000, 1000]`: one element too many. */
  lemma TupleTooMany()
    ensures var v := VList([VStr("butwait"), VInt(1000), VInt(1000)]);
      Validate(v, Tuple([Str, Num(None)]), [])
        == Fail(Invalid(ValidationError(v, "has too " + "many" + " elements (it requires " + "2" + ")", Trace([], Named("Tuple")))))
  {
    assert NatToString(2) == "2";
  }

  /** The lenient number pattern has no sign: `"-1"` is refused although `float("-1")` would succeed. */
  lemma SignedTextRefused()
    ensures ValidateVariant(Number(None, None, false, Unconditional), VStr("-1"))
         == Fail(Invalid(ValidationError(VStr("-1"), "is not a validly formatted number", Trace([], Named("Number")))))
  {
    assert !IsDigit("-1"[0]);
    assert DotIndex("-1") == None;
  }

  /** The lenient `Boolean` reads the token `'false'` as `False`; the strict one refuses it. */
  lemma FalseToken()
    ensures Clean(VStr("false"), Scalar(Boolean(false))) == Ok(VBool(false))
    ensures Validate(VStr("false"), Scalar(Boolean(true)), [])
         == Fail(Invalid(ValidationError(VStr("false"), "is not boolean", Trace([], Named("Boolean")))))
  {
    assert FalseTokens[2] == VStr("false");
  }

  /** `Any(Number(), String())` turns `"42"` into the int 42: the first alternative wins. */
  lemma NumberBeforeString()
    ensures Clean(VStr("42"), Any([Num(None), Str])) == Ok(VInt(42))
  {
    assert DotIndex("42") == None by {
      assert "42"[1..] == "2" && "2"[1..] == "";
    }
    assert DigitsValue("42") == 42 by {
      assert "42"[..1] == "4" && "4"[..0] == "";
    }
    assert Unconditional(VInt(42)) == Satisfied;
    assert Clean(VStr("42"), Num(None)) == Ok(VInt(42));
    var s := Any([Num(None), Str]);
    assert s.alternatives[0] == Num(None);
    assert ParseAny(VStr("42"), s, [], 0, []) == Ok(VInt(42));
  }

  /** A `Constant` refuses every other value, naming itself by its repr. */
  lemma ConstantRefuses(c: Value, repr: string, v: Value)
    requires PyRepr(c) == repr && v != c
    ensures Clean(v, Scalar(Constant(c)))
         == Err(Invalid(ValidationError(v, "is not equals to " + repr, Trace([], Named("Constant(" + repr + ")")))))
  {
  }

  /** `Any` of three `Constant`s refuses `"BARZ"`, listing the three constants. */
  lemma NoConstantMatches()
    ensures var cs := [Scalar(Constant(VStr("FOO"))), Scalar(Constant(VStr("BAR"))), Scalar(Constant(VStr("BAZ")))];
      Clean(VStr("BARZ"), Any(cs))
        == Err(Invalid(ValidationError(VStr("BARZ"), AnyMessage, Trace([], InAny([
             Trace([], Named("Constant(" + "'FOO'" + ")")),
             Trace([], Named("Constant(" + "'BAR'" + ")")),
             Trace([], Named("Constant(" + "'BAZ'" + ")"))])))))
  {
    var cs := [Scalar(Constant(VStr("FOO"))), Scalar(Constant(VStr("BAR"))), Scalar(Constant(VStr("BAZ")))];
    var s := Any(cs);
    var v := VStr("BARZ");
    var t0 := Trace([], Named("Constant(" + "'FOO'" + ")"));
    var t1 := Trace([], Named("Constant(" + "'BAR'" + ")"));
    var t2 := Trace([], Named("Constant(" + "'BAZ'" + ")"));
    ConstantRefuses(VStr("FOO"), "'FOO'", v);
    ConstantRefuses(VStr("BAR"), "'BAR'", v);
    ConstantRefuses(VStr("BAZ"), "'BAZ'", v);
    assert [] + [t0] == [t0] && [t0] + [t1] == [t0, t1] && [t0, t1] + [t2] == [t0, t1, t2];
    assert ParseAny(v, s, [], 2, [t0, t1]) == ParseAny(v, s, [], 3, [t0, t1, t2]);
    assert ParseAny(v, s, [], 1, [t0]) == ParseAny(v, s, [], 2, [t0, t1]);
    assert ParseAny(v, s, [], 0, []) == ParseAny(v, s, [], 1, [t0]);
  }

  /** A bool is a number: `True` passes `Number()` and comes out as the int 1. */
  lemma TrueIsOne()
    ensures Clean(VBool(true), Num(None)) == Ok(VInt(1))
  {
    assert Unconditional(VInt(1)) == Satisfied;
  }

  /** `YYYY-02-30` matches the `Date` pattern, and the parse pass reports it as an invalid date. */
  lemma NoThirtiethOfFebruary(c: Condition, s: string)
    requires IsDateText(s) && s[5..7] == "02" && s[8..10] == "30"
    ensures ValidateVariant(Date(c), VStr(s)) == Pass
    ensures ParseVariant(Date(c), VStr(s))
         == Err(Invalid(ValidationError(VStr(s), "is an invalid date", Trace([], Named("Date")))))
  {
    assert DigitsValue("02") == 2 by {
      assert "02"[..1] == "0" && "0"[..0] == "";
    }
    assert DigitsValue("30") == 30 by {
      assert "30"[..1] == "3" && "3"[..0] == "";
    }
    assert !IsCalendarDate(DigitsValue(s[0..4]), 2, 30);
  }

  /** Two digits denote their decimal value. */
  lemma TwoDigits(s: string)
    requires |s| == 2 && AllDigits(s)
    ensures DigitsValue(s) == 10 * (s[0] as int - '0' as int) + (s[1] as int - '0' as int)
  {
    var a := s[..1];
    assert a[..0] == [] && a[0] == s[0];
    assert DigitsValue(a) == s[0] as int - '0' as int;
  }

  const ZonedText: string := "2000-01-02T10:10:10.123Z"

  /** The four digits of the year 2000. */
  lemma YearDigits()
    ensures AllDigits("2000") && DigitsValue("2000") == 2000
  {
    TwoDigits("20");
    AppendDigit("20", '0');
    assert "20" + ['0'] == "200";
    AppendDigit("200", '0');
    assert "200" + ['0'] == "2000";
  }

  /** The fields of `ZonedText`, read as `strptime` reads them. */
  lemma ZonedFields()
    ensures IsDatetimeHead(ZonedText)
    ensures DigitsValue(ZonedText[0..4]) == 2000 && DigitsValue(ZonedText[5..7]) == 1
    ensures DigitsValue(ZonedText[8..10]) == 2 && DigitsValue(ZonedText[11..13]) == 10
    ensures DigitsValue(ZonedText[14..16]) == 10 && DigitsValue(ZonedText[17..19]) == 10
    ensures ZonedText[19..] == ".123Z"
  {
    ZonedSlices();
    YearDigits();
    TwoDigits("01");
    TwoDigits("02");
    TwoDigits("10");
  }

  /** `ZonedText` cut at the field boundaries of the pattern. */
  lemma ZonedSlices()
    ensures ZonedText[0..4] == "2000" && ZonedText[5..7] == "01" && ZonedText[8..10] == "02"
    ensures ZonedText[11..13] == "10" && ZonedText[14..16] == "10" && ZonedText[17..19] == "10"
    ensures ZonedText[19..] == ".123Z"
    ensures |ZonedText| == 24 && ZonedText[4] == '-' && ZonedText[7] == '-' && ZonedText[10] == 'T'
    ensures ZonedText[13] == ':' && ZonedText[16] == ':'
  {
    var s := ZonedText;
    assert s[0..4] == [s[0], s[1], s[2], s[3]] == "2000";
    assert s[5..7] == [s[5], s[6]] == "01";
    assert s[8..10] == [s[8], s[9]] == "02";
    assert s[11..13] == [s[11], s[12]] == "10";
    assert s[14..16] == [s[14], s[15]] == "10";
    assert s[17..19] == [s[17], s[18]] == "10";
    assert s[19..] == [s[19], s[20], s[21], s[22], s[23]] == ".123Z";
  }

  /** `.123Z` fits only the third format, which reads 123000 microseconds. */
  lemma ZonedTail()
    ensures FormatTail(WholeSeconds, ".123Z").None?
    ensures FormatTail(Fraction, ".123Z").None?
    ensures FormatTail(FractionZ, ".123Z") == Some(123000)
  {
    var tail := ".123Z";
    assert !AllDigits(tail[1..]) by {
      assert !IsDigit(tail[1..][3]);
    }
    assert tail[1..|tail| - 1] == "123";
    TwoDigits("12");
    AppendDigit("12", '3');
    assert "12" + ['3'] == "123";
  }

  /**
   * A datetime with a fraction and a zone marker: it matches the pattern,
   * `.123` is read as 123000 microseconds, and the `Z` is dropped.
   */
  lemma FractionWithZone()
    ensures Clean(VStr(ZonedText), Scalar(Datetime(Unconditional)))
         == Ok(VDatetime(2000, 1, 2, 10, 10, 10, 123000))
  {
    ZonedVariant();
  }

  /** The `Datetime` hooks on `ZonedText`. */
  lemma ZonedVariant()
    ensures ValidateVariant(Datetime(Unconditional), VStr(ZonedText)) == Pass
    ensures GetParsedValue(Datetime(Unconditional), VStr(ZonedText)) == Ok(VDatetime(2000, 1, 2, 10, 10, 10, 123000))
  {
    var v, t := VStr(ZonedText), Datetime(Unconditional);
    var out := VDatetime(2000, 1, 2, 10, 10, 10, 123000);
    ZonedStrptime();
    assert ParseVariant(t, v) == Ok(out);
    assert Unconditional(out) == Satisfied;
  }

  /** `ZonedText` matches the `Datetime` pattern, and the third format reads it. */
  lemma ZonedStrptime()
    ensures IsDatetimeText(ZonedText)
    ensures StrptimeDatetime(ZonedText) == Some(VDatetime(2000, 1, 2, 10, 10, 10, 123000))
  {
    ZonedFields();
    ZonedTail();
    assert Strptime(ZonedText, WholeSeconds).None?;
    assert Strptime(ZonedText, Fraction).None?;
  }
}

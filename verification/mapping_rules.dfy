/**
 * What the walker does with `dict` schemas: the input must be a dict, the
 * schema's required keys are checked before any value, values are then
 * checked in the input's order, keys the schema does not name are ignored,
 * and parsing yields exactly the schema's keys.
 */
module MappingRules {
  import opened Wrappers
  import opened Values
  import opened Errors
  import opened Variants
  import opened Walker

  lemma NotAnObject(v: Value, fields: seq<(string, Schema)>, p: seq<Segment>)
    requires !v.VDict?
    ensures Validate(v, Dict(fields), p) == Fail(Rejection(v, "is not an object", p, "Object"))
  {
  }

  /**
   * The first required key (in the schema's order) that the input lacks is
   * reported, whatever the input's values are: the key check comes before
   * any value is looked at.
   */
  lemma MissingRequiredKey(entries: seq<(string, Value)>, fields: seq<(string, Schema)>, p: seq<Segment>, j: nat)
    requires j < |fields| && IsMissing(fields[j], entries)
    requires forall q :: 0 <= q < j ==> !IsMissing(fields[q], entries)
    ensures Validate(VDict(entries), Dict(fields), p)
         == Fail(Rejection(VDict(entries), "doesn't have key \"" + fields[j].0 + "\"", p, "Object"))
  {
    assert MissingKey(fields, entries) == Some(j);
  }

  /** An input entry is acceptable: its key is not in the schema, or its value validates there. */
  predicate EntryPasses(entry: (string, Value), s: Schema, p: seq<Segment>)
    requires s.Dict?
  {
    ValidateEntry(entry, s, p).Pass?
  }

  /** The entries pass exactly when every one of them is acceptable. */
  lemma {:induction false} EntriesAllPass(entries: seq<(string, Value)>, s: Schema, p: seq<Segment>)
    requires s.Dict?
    ensures ValidateEntries(entries, s, p).Pass? <==> forall m :: 0 <= m < |entries| ==> EntryPasses(entries[m], s, p)
  {
    if entries != [] {
      EntriesAllPass(entries[1..], s, p);
      assert forall m :: 1 <= m < |entries| ==> entries[m] == entries[1..][m - 1];
    }
  }

  /** Values are checked in the input's order: the first unacceptable entry decides the failure. */
  lemma {:induction false} EntriesFirstFailure(entries: seq<(string, Value)>, s: Schema, p: seq<Segment>, m: nat)
    requires s.Dict? && m < |entries|
    requires forall q :: 0 <= q < m ==> EntryPasses(entries[q], s, p)
    requires !EntryPasses(entries[m], s, p)
    ensures IndexOf(s.fields, entries[m].0).Some?
    ensures ValidateEntries(entries, s, p)
         == Validate(entries[m].1, s.fields[IndexOf(s.fields, entries[m].0).value].1, p + [ObjectKey(entries[m].0)])
  {
    if m > 0 {
      EntryStep(entries, s, p);
      assert forall q :: 0 <= q < m - 1 ==> entries[1..][q] == entries[q + 1];
      EntriesFirstFailure(entries[1..], s, p, m - 1);
    } else {
      EntryStep(entries, s, p);
    }
  }

  /** One step of the validation of entries: an acceptable first entry is skipped, any other decides. */
  lemma EntryStep(entries: seq<(string, Value)>, s: Schema, p: seq<Segment>)
    requires s.Dict? && entries != []
    ensures EntryPasses(entries[0], s, p) ==> ValidateEntries(entries, s, p) == ValidateEntries(entries[1..], s, p)
    ensures !EntryPasses(entries[0], s, p) ==>
      && IndexOf(s.fields, entries[0].0).Some?
      && ValidateEntries(entries, s, p)
         == Validate(entries[0].1, s.fields[IndexOf(s.fields, entries[0].0).value].1, p + [ObjectKey(entries[0].0)])
  {
  }

  /** `d.get(k)` and `k in d` skip a first entry with another key. */
  lemma TailOtherKey(l: seq<(string, Value)>, key: string)
    requires |l| > 0 && l[0].0 != key
    ensures Get(l, key) == Get(l[1..], key)
    ensures key in Keys(l) <==> key in Keys(l[1..])
  {
    match IndexOf(l[1..], key)
    case None =>
      assert IndexOf(l, key) == None;
    case Some(j) =>
      assert IndexOf(l, key) == Some(j + 1);
      assert l[j + 1] == l[1..][j];
  }

  /** `d.get(k)` finds a first entry with key `k`. */
  lemma HeadKey(l: seq<(string, Value)>)
    requires |l| > 0
    ensures Get(l, l[0].0) == l[0].1
    ensures l[0].0 in Keys(l)
  {
    assert IndexOf(l, l[0].0) == Some(0);
  }

  /** Inserting an entry under another key changes neither `d.get(key)` nor `key in d`. */
  lemma {:induction false} GetSkipsOtherKey(before: seq<(string, Value)>, k: string, x: Value, after: seq<(string, Value)>, key: string)
    requires key != k
    ensures Get(before + [(k, x)] + after, key) == Get(before + after, key)
    ensures key in Keys(before + [(k, x)] + after) <==> key in Keys(before + after)
  {
    var long, short := before + [(k, x)] + after, before + after;
    if before == [] {
      assert long[0] == (k, x) && long[1..] == short;
      TailOtherKey(long, key);
    } else {
      var h := before[0];
      assert long[0] == h && long[1..] == before[1..] + [(k, x)] + after;
      assert short[0] == h && short[1..] == before[1..] + after;
      if h.0 == key {
        HeadKey(long);
        HeadKey(short);
      } else {
        TailOtherKey(long, key);
        TailOtherKey(short, key);
        GetSkipsOtherKey(before[1..], k, x, after, key);
      }
    }
  }

  lemma {:induction false} EntriesSkipExtraKey(before: seq<(string, Value)>, k: string, x: Value,
                                               after: seq<(string, Value)>, s: Schema, p: seq<Segment>)
    requires s.Dict? && k !in Keys(s.fields)
    ensures ValidateEntries(before + [(k, x)] + after, s, p) == ValidateEntries(before + after, s, p)
  {
    var long, short := before + [(k, x)] + after, before + after;
    if before == [] {
      assert long == [(k, x)] + short;
      assert long[1..] == short;
    } else {
      assert long[0] == before[0] && short[0] == before[0];
      assert long[1..] == before[1..] + [(k, x)] + after;
      assert short[1..] == before[1..] + after;
      EntriesSkipExtraKey(before[1..], k, x, after, s, p);
    }
  }

  lemma {:induction false} FieldsSkipExtraKey(before: seq<(string, Value)>, k: string, x: Value,
                                              after: seq<(string, Value)>, s: Schema, p: seq<Segment>, i: nat)
    requires s.Dict? && k !in Keys(s.fields) && i <= |s.fields|
    ensures ParseFields(before + [(k, x)] + after, s, p, i) == ParseFields(before + after, s, p, i)
    decreases |s.fields| - i
  {
    if i < |s.fields| {
      assert Keys(s.fields)[i] == s.fields[i].0;
      GetSkipsOtherKey(before, k, x, after, s.fields[i].0);
      FieldsSkipExtraKey(before, k, x, after, s, p, i + 1);
    }
  }

  /**
   * A key the schema does not name changes nothing: the same keys are
   * missing, the same values are checked, and the parsed result is the same.
   */
  lemma ExtraKeyIgnored(before: seq<(string, Value)>, k: string, x: Value, after: seq<(string, Value)>,
                        fields: seq<(string, Schema)>, p: seq<Segment>)
    requires k !in Keys(fields)
    ensures MissingKey(fields, before + [(k, x)] + after) == MissingKey(fields, before + after)
    ensures Validate(VDict(before + [(k, x)] + after), Dict(fields), p).Pass?
        <==> Validate(VDict(before + after), Dict(fields), p).Pass?
    ensures Parse(VDict(before + [(k, x)] + after), Dict(fields), p) == Parse(VDict(before + after), Dict(fields), p)
  {
    var long, short := before + [(k, x)] + after, before + after;
    forall j | 0 <= j < |fields|
      ensures IsMissing(fields[j], long) == IsMissing(fields[j], short)
    {
      assert Keys(fields)[j] == fields[j].0;
      GetSkipsOtherKey(before, k, x, after, fields[j].0);
    }
    MissingKeyDependsOnKeys(fields, long, short);
    EntriesSkipExtraKey(before, k, x, after, Dict(fields), p);
    FieldsSkipExtraKey(before, k, x, after, Dict(fields), p, 0);
  }

  lemma {:induction false} MissingKeyDependsOnKeys(fields: seq<(string, Schema)>, e1: seq<(string, Value)>, e2: seq<(string, Value)>)
    requires forall j :: 0 <= j < |fields| ==> IsMissing(fields[j], e1) == IsMissing(fields[j], e2)
    ensures MissingKey(fields, e1) == MissingKey(fields, e2)
  {
    if |fields| > 0 {
      assert forall j :: 0 <= j < |fields| - 1 ==> fields[1..][j] == fields[j + 1];
      MissingKeyDependsOnKeys(fields[1..], e1, e2);
    }
  }

  /** Each parsed field is the parse of `value.get(key)` against that field's schema. */
  lemma {:induction false} FieldsParsed(entries: seq<(string, Value)>, s: Schema, p: seq<Segment>, i: nat)
    requires s.Dict? && i <= |s.fields| && ParseFields(entries, s, p, i).Ok?
    ensures forall j :: i <= j < |s.fields| ==> ParseField(entries, s, p, j) == Ok(ParseFields(entries, s, p, i).value[j - i].1)
    decreases |s.fields| - i
  {
    if i < |s.fields| {
      var k := s.fields[i].0;
      var head := ParseField(entries, s, p, i);
      var tail := ParseFields(entries, s, p, i + 1);
      var r := ParseFields(entries, s, p, i);
      assert head.Ok? && tail.Ok? && r.value == [(k, head.value)] + tail.value;
      FieldsParsed(entries, s, p, i + 1);
      forall j | i < j < |s.fields|
        ensures ParseField(entries, s, p, j) == Ok(r.value[j - i].1)
      {
        assert r.value[j - i] == tail.value[j - (i + 1)];
      }
    }
  }

  /**
   * Parsing a dict yields exactly the schema's keys, in the schema's order,
   * and an absent `Optional` key comes out as `None`.
   */
  lemma ParsedKeys(entries: seq<(string, Value)>, fields: seq<(string, Schema)>, p: seq<Segment>)
    requires Parse(VDict(entries), Dict(fields), p).Ok?
    ensures Parse(VDict(entries), Dict(fields), p).value.VDict?
    ensures Keys(Parse(VDict(entries), Dict(fields), p).value.entries) == Keys(fields)
    ensures forall j :: 0 <= j < |fields| && fields[j].0 !in Keys(entries) && fields[j].1.Optional? ==>
      Parse(VDict(entries), Dict(fields), p).value.entries[j].1 == VNull
  {
    var s := Dict(fields);
    var f := ParseFields(entries, s, p, 0);
    assert f.Ok? && Parse(VDict(entries), s, p) == Ok(VDict(f.value));
    var out := f.value;
    assert |out| == |fields|;
    assert forall j :: 0 <= j < |fields| ==> Keys(out)[j] == Keys(fields)[j];
    FieldsParsed(entries, s, p, 0);
    forall j | 0 <= j < |fields| && fields[j].0 !in Keys(entries) && fields[j].1.Optional?
      ensures out[j].1 == VNull
    {
      AbsentOptional(entries, fields[j].0, fields[j].1, p + [ObjectKey(fields[j].0)]);
      assert ParseField(entries, s, p, j) == Parse(Get(entries, fields[j].0), fields[j].1, p + [ObjectKey(fields[j].0)]);
      assert out[j - 0] == out[j];
    }
  }

  /** An absent key reads as `None`, which an `Optional` parses to `None`. */
  lemma AbsentOptional(entries: seq<(string, Value)>, k: string, s: Schema, q: seq<Segment>)
    requires k !in Keys(entries) && s.Optional?
    ensures Parse(Get(entries, k), s, q) == Ok(VNull)
  {
    assert Get(entries, k) == VNull;
  }
}

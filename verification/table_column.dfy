/** Column schemas of the older name-keyed row generation (internal/table):
    a name, a default value, a Go type and a list of validation rules. A
    value is one of the older codecs' values, or nil (`None`). */
module TableColumn {
  import opened Errors
  import opened ByteSeq
  import opened LegacyColumnTypes

  /** A reflect.Type as the older generation sees it: nil, the `Int` or
      `Str` column type, or a type that does not implement Column. */
  datatype ColType = NilType | IntType | StrType | OtherType

  /** A column value; Go's nil column is `None`. */
  type Value = Option<LegacyValue>

  /** reflect.TypeOf of a non-nil value. */
  function TypeOf(v: LegacyValue): (t: ColType)
    ensures t == IntType || t == StrType
    ensures t == IntType <==> v.LegacyInt?
  {
    match v
    case LegacyInt(_) => IntType
    case LegacyStr(_) => StrType
  }

  /** A ColumnRuleFunc: nil or an error for a value. */
  type Rule = Value -> Option<Error>

  datatype ColumnSchema = ColumnSchema(Name: Str, Default: Value, Type: ColType, Rules: seq<Rule>)

  /** WithTypeOf (internal/table/column.go:31-43). A mismatch builds the
      wanted type's name through reflection, which panics unless the
      wanted type is a Column type. */
  function WithTypeOf(typ: ColType): (rule: Rule)
    ensures rule(None) == None
    ensures forall v: LegacyValue :: rule(Some(v)).None? <==> TypeOf(v) == typ
    ensures forall v: LegacyValue :: rule(Some(v)).Some? ==>
              rule(Some(v)) == Some(if typ == IntType || typ == StrType then TypeMismatch else Panic)
  {
    (col: Value) =>
      if col.None? then None
      else if TypeOf(col.value) != typ then
        Some(if typ == IntType || typ == StrType then TypeMismatch else Panic)
      else None
  }

  /** WithNotNullValueRule (internal/table/column.go:45-52): rejects
      exactly nil. */
  function WithNotNullValueRule(): (rule: Rule)
    ensures forall col: Value :: rule(col).Some? <==> col.None?
    ensures rule(None) == Some(NullValue)
  {
    (col: Value) => if col.None? then Some(NullValue) else None
  }

  /** The first failure among `rules`, run in order on `col`. */
  function FirstFailure(rules: seq<Rule>, col: Value): Option<Error>
  {
    if |rules| == 0 then None
    else if rules[0](col).Some? then rules[0](col)
    else FirstFailure(rules[1..], col)
  }

  /** Validate (internal/table/column.go:18-27): the user rules, then the
      type rule; the wrapped error keeps the failure's kind. */
  function Validate(s: ColumnSchema, col: Value): Option<Error>
  {
    FirstFailure(s.Rules + [WithTypeOf(s.Type)], col)
  }

  /** No failure is reported exactly when every rule passes, and a
      reported failure is that of a failing rule all of whose predecessors
      pass. */
  lemma {:induction false} FirstFailureMeaning(rules: seq<Rule>, col: Value)
    ensures FirstFailure(rules, col).None? <==> forall i | 0 <= i < |rules| :: rules[i](col).None?
    ensures FirstFailure(rules, col).Some? ==>
              exists i | 0 <= i < |rules| :: FirstFailure(rules, col) == rules[i](col) &&
                forall j | 0 <= j < i :: rules[j](col).None?
  {
    if |rules| > 0 && rules[0](col).None? {
      FirstFailureMeaning(rules[1..], col);
      assert forall i | 1 <= i < |rules| :: rules[i] == rules[1..][i - 1];
      if FirstFailure(rules, col).Some? {
        var i :| 0 <= i < |rules[1..]| && FirstFailure(rules[1..], col) == rules[1..][i](col) &&
                 forall j | 0 <= j < i :: rules[1..][j](col).None?;
        assert forall j | 0 <= j < i + 1 :: rules[j](col).None? by {
          forall j | 0 <= j < i + 1 ensures rules[j](col).None? {
            if j > 0 { assert rules[j] == rules[1..][j - 1]; }
          }
        }
      }
    }
  }

  /** A rule appended after rules that all pass decides the outcome; after
      a failing rule it is never run. */
  lemma {:induction false} FirstFailureAppend(rules: seq<Rule>, last: Rule, col: Value)
    ensures (forall i | 0 <= i < |rules| :: rules[i](col).None?) ==>
              FirstFailure(rules + [last], col) == last(col)
    ensures FirstFailure(rules, col).Some? ==>
              FirstFailure(rules + [last], col) == FirstFailure(rules, col)
  {
    if |rules| > 0 {
      assert (rules + [last])[1..] == rules[1..] + [last];
      assert (forall i | 0 <= i < |rules| :: rules[i](col).None?) ==>
               forall i | 0 <= i < |rules[1..]| :: rules[1..][i](col).None?;
      FirstFailureAppend(rules[1..], last, col);
    } else {
      assert rules + [last] == [last];
    }
  }

  /** Validate passes exactly when every user rule and the type rule pass;
      when the user rules pass the type rule decides; a failing user rule
      is reported before the type is looked at. */
  lemma ValidateMeaning(s: ColumnSchema, col: Value)
    ensures Validate(s, col).None? <==>
              (forall i | 0 <= i < |s.Rules| :: s.Rules[i](col).None?) &&
              (col.None? || TypeOf(col.value) == s.Type)
    ensures (forall i | 0 <= i < |s.Rules| :: s.Rules[i](col).None?) ==>
              Validate(s, col) == WithTypeOf(s.Type)(col)
    ensures FirstFailure(s.Rules, col).Some? ==> Validate(s, col) == FirstFailure(s.Rules, col)
  {
    FirstFailureMeaning(s.Rules, col);
    FirstFailureAppend(s.Rules, WithTypeOf(s.Type), col);
  }

  /** Nil passes a schema exactly when it passes the user rules: the type
      rule accepts it. */
  lemma ValidateNil(s: ColumnSchema)
    ensures Validate(s, None) == FirstFailure(s.Rules, None)
  {
    FirstFailureMeaning(s.Rules, None);
    FirstFailureAppend(s.Rules, WithTypeOf(s.Type), None);
  }

  /** A not-null rule among the user rules rejects nil, whatever the
      other rules say. */
  lemma NotNullRejectsNil(s: ColumnSchema, k: nat)
    requires k < |s.Rules| && s.Rules[k] == WithNotNullValueRule()
    ensures Validate(s, None).Some?
  {
    FirstFailureMeaning(s.Rules + [WithTypeOf(s.Type)], None);
    assert (s.Rules + [WithTypeOf(s.Type)])[k] == s.Rules[k];
  }

  /** ColumnFromType (pkg/data/column.go:17-28) at host width `w`: a type
      that does not implement Column is refused, a nil type panics, and
      otherwise the payload goes to that type's Unmarshal. */
  function ColumnFromType(w: nat, t: ColType, p: seq<byte>): (r: Result<LegacyValue>)
    ensures r.Ok? ==> TypeOf(r.value) == t
    ensures t == OtherType ==> r == Err(DoesNotImplement)
    ensures t == IntType ==> r == IntUnmarshal(w, p)
    ensures t == StrType ==> r == StrUnmarshal(w, p)
  {
    match t
    case NilType => Err(Panic)
    case OtherType => Err(DoesNotImplement)
    case IntType => IntUnmarshal(w, p)
    case StrType => StrUnmarshal(w, p)
  }

  /** A value of the column's type that survives its codec comes back from
      its marshalled form. */
  lemma ColumnFromMarshal(w: nat, t: ColType, v: LegacyValue, rest: seq<byte>)
    requires TypeOf(v) == t && RoundTrips(w, v)
    ensures ColumnFromType(w, t, MarshalValue(w, v).value + rest) == Ok(v)
  {
    ValueRoundTrip(w, v, rest);
  }
}

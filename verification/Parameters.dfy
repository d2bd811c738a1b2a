/**
 * Parameter values and their YDB types: how a value is bound once its Django
 * field type is known, or is not (`_resolve_one`, `_infer_ydb_type`).
 */
module Parameters {
  import opened Options
  import opened TimeEncoding

  /** A Python value; `OtherV` is any object the backend has no case for. */
  datatype PyValue =
    | NoneV
    | BoolV(b: bool)
    | IntV(i: int)
    | FloatV(r: real)
    | StrV(s: string)
    | BytesV(s: string)
    | UuidV(u: int)
    | DecimalV(r: real)
    | DatetimeV(since: Delta)
    | DateV(days: int)
    | TimeV(t: TimeOfDay)
    | TimedeltaV(d: Delta)
    | OtherV(id: int)

  datatype YdbType = Primitive(name: string) | DecimalType(precision: int, scale: int) | OptionalType(of: YdbType)

  /**
   * What the compiler knows of a parameter's field: nothing, a decimal with its
   * precision, one of the temporal types, another type with its entry in
   * `_ydb_types`, or a type that has none.
   */
  datatype FieldType =
    | Unresolved
    | DecimalField(precision: int, scale: int)
    | DateTimeField
    | DateField
    | TimeField
    | DurationField
    | Mapped(ydb: YdbType)
    | Unmapped(name: string)

  datatype Bound = Bound(value: PyValue, ydb: YdbType)

  /** `_TypedParam` is a value whose type was settled by the query it came from. */
  datatype Param = Plain(v: PyValue) | Typed(bound: Bound)

  predicate IsTemporalValue(v: PyValue) {
    v.DatetimeV? || v.DateV? || v.TimeV? || v.TimedeltaV?
  }

  predicate IsTemporalType(ty: FieldType) {
    ty.DateTimeField? || ty.DateField? || ty.TimeField? || ty.DurationField?
  }

  /** `isinstance(v, int)`, which holds of booleans too. */
  predicate IsInt(v: PyValue) {
    v.IntV? || v.BoolV?
  }

  /** `_infer_ydb_type`; None is its `ValueError`. */
  function InferYdbType(v: PyValue): Option<YdbType> {
    match v
    case NoneV => Some(OptionalType(Primitive("Utf8")))
    case BoolV(_) => Some(Primitive("Bool"))
    case IntV(_) => Some(Primitive("Int64"))
    case FloatV(_) => Some(Primitive("Double"))
    case StrV(_) => Some(Primitive("Utf8"))
    case BytesV(_) => Some(Primitive("String"))
    case UuidV(_) => Some(Primitive("UUID"))
    case DecimalV(_) => Some(DecimalType(22, 9))
    case _ => None
  }

  /** The binding of a value whose field type says nothing. */
  function BindByValue(v: PyValue): Option<Bound> {
    match v
    case DatetimeV(since) => Some(Bound(IntV(DatetimeToEpochUs(since)), Primitive("Timestamp64")))
    case TimeV(t) => Some(Bound(IntV(TimeToMicros(t)), Primitive("Int64")))
    case DateV(_) => Some(Bound(v, Primitive("Date32")))
    case _ => if InferYdbType(v).None? then None else Some(Bound(v, InferYdbType(v).value))
  }

  /** `_resolve_one`; None where it raises. */
  function ResolveOne(ty: FieldType, v: PyValue): Option<Bound> {
    if ty.DecimalField? then Some(Bound(v, DecimalType(ty.precision, ty.scale)))
    else
      var ty := if ty != Unresolved && !IsTemporalType(ty) && IsTemporalValue(v) then Unresolved else ty;
      match ty
      case DateTimeField =>
        if IsInt(v) then Some(Bound(v, Primitive("Int32")))
        else if v.DatetimeV? then Some(Bound(IntV(DatetimeToEpochUs(v.since)), Primitive("Timestamp64")))
        else None
      case TimeField =>
        if IsInt(v) then Some(Bound(v, Primitive("Int64")))
        else if v.TimeV? then Some(Bound(IntV(TimeToMicros(v.t)), Primitive("Int64")))
        else if v.DatetimeV? then Some(Bound(IntV(TimeToMicros(TimeOf(v.since))), Primitive("Int64")))
        else None
      case DateField => Some(Bound(v, Primitive("Date32")))
      case DurationField => Some(Bound(v, Primitive("Interval")))
      case Mapped(ydb) => Some(Bound(v, ydb))
      case _ => BindByValue(v)
  }

  // ---- What a binding holds ----

  /** `w` is an integer that is read back as the time. */
  predicate ReadsAsTime(t: TimeOfDay, w: PyValue) {
    w.IntV? && (ValidTime(t) ==> ConvertTimefieldValue(w.i) == Some(t))
  }

  /** `w` is an integer that is read back as the datetime. */
  predicate ReadsAsDatetime(d: Delta, w: PyValue) {
    w.IntV? && (Normalised(d) ==> DeltaOf(w.i) == d)
  }

  /** `w` is an integer that is read back as the time of day of the datetime. */
  predicate ReadsAsTimeOf(d: Delta, w: PyValue) {
    w.IntV?
    && (Normalised(d) ==>
          var t := ConvertTimefieldValue(w.i);
          && t.Some? && t.value.hour * 3600 + t.value.minute * 60 + t.value.second == d.seconds
          && t.value.microsecond == d.microseconds)
  }

  /** `w` is `v` itself, or encodes it where a column of this type holds an integer. */
  predicate Keeps(encodes: bool, ty: FieldType, v: PyValue, w: PyValue) {
    if encodes && v.TimeV? then ReadsAsTime(v.t, w)
    else if encodes && v.DatetimeV? then
      if ty.TimeField? then ReadsAsTimeOf(v.since, w) else ReadsAsDatetime(v.since, w)
    else w == v
  }

  /** The field types under which datetimes and times are bound as they are. */
  predicate BindsAsIs(ty: FieldType) {
    ty.DecimalField? || ty.DateField? || ty.DurationField?
  }

  /** The values that no type can be found for, or that the field cannot take. */
  predicate Unbindable(ty: FieldType, v: PyValue) {
    match ty
    case DateTimeField => !v.IntV? && !v.BoolV? && !v.DatetimeV?
    case TimeField => !v.IntV? && !v.BoolV? && !v.DatetimeV? && !v.TimeV?
    case Mapped(_) => v.TimedeltaV?
    case Unresolved => v.TimedeltaV? || v.OtherV?
    case Unmapped(_) => v.TimedeltaV? || v.OtherV?
    case _ => false
  }

  /** Binding fails exactly for these values, and otherwise keeps the value. */
  lemma BindingKeepsValue(ty: FieldType, v: PyValue)
    ensures ResolveOne(ty, v).None? <==> Unbindable(ty, v)
    ensures ResolveOne(ty, v).Some? ==> Keeps(!BindsAsIs(ty), ty, v, ResolveOne(ty, v).value.value)
  {
    match v
    case TimeV(t) => TimeReads(t);
    case DatetimeV(since) => DatetimeReads(since);
    case _ =>
  }

  lemma TimeReads(t: TimeOfDay)
    ensures ReadsAsTime(t, IntV(TimeToMicros(t)))
  {
    if ValidTime(t) {
      TimeRoundTrip(t);
    }
  }

  lemma DatetimeReads(d: Delta)
    ensures ReadsAsDatetime(d, IntV(DatetimeToEpochUs(d))) && ReadsAsTimeOf(d, IntV(TimeToMicros(TimeOf(d))))
  {
    if Normalised(d) {
      DeltaRoundTrip(d);
      TimeOfIsExact(d);
      TimeRoundTrip(TimeOf(d));
    }
  }

  /** The type of a value that says it by itself. */
  predicate HasOwnType(v: PyValue, ydb: YdbType) {
    match v
    case NoneV => ydb == OptionalType(Primitive("Utf8"))
    case BoolV(_) => ydb == Primitive("Bool")
    case IntV(_) => ydb == Primitive("Int64")
    case FloatV(_) => ydb == Primitive("Double")
    case StrV(_) => ydb == Primitive("Utf8")
    case BytesV(_) => ydb == Primitive("String")
    case UuidV(_) => ydb == Primitive("UUID")
    case DecimalV(_) => ydb == DecimalType(22, 9)
    case DatetimeV(_) => ydb == Primitive("Timestamp64")
    case DateV(_) => ydb == Primitive("Date32")
    case TimeV(_) => ydb == Primitive("Int64")
    case _ => false
  }

  /**
   * A bound value has the type of its field, a decimal with its precision, but
   * for an integer compared with a part of a datetime; without a field type, or
   * against a type that is not temporal, a temporal value goes by its own.
   */
  predicate Suits(ty: FieldType, v: PyValue, ydb: YdbType) {
    match ty
    case DecimalField(precision, scale) => ydb == DecimalType(precision, scale)
    case DateTimeField => ydb == if v.DatetimeV? then Primitive("Timestamp64") else Primitive("Int32")
    case DateField => ydb == Primitive("Date32")
    case TimeField => ydb == Primitive("Int64")
    case DurationField => ydb == Primitive("Interval")
    case Mapped(own) => if v.DatetimeV? || v.DateV? || v.TimeV? then HasOwnType(v, ydb) else ydb == own
    case _ => HasOwnType(v, ydb)
  }

  lemma BindingHasFieldType(ty: FieldType, v: PyValue)
    requires ResolveOne(ty, v).Some?
    ensures Suits(ty, v, ResolveOne(ty, v).value.ydb)
  {
  }

  /** A typed parameter passes through; any other is resolved from its field type. */
  function Resolve(ty: FieldType, p: Param): Option<Bound> {
    match p
    case Typed(bound) => Some(bound)
    case Plain(v) => ResolveOne(ty, v)
  }

  /** `_resolve_typed_params`: a missing field type counts as unresolved. */
  function ResolveTypedParams(types: seq<FieldType>, params: seq<Param>): (bs: seq<Option<Bound>>)
    ensures |bs| == |params|
    ensures forall i :: 0 <= i < |params| ==>
              bs[i] == Resolve(if i < |types| then types[i] else Unresolved, params[i])
  {
    seq(|params|, i requires 0 <= i < |params| =>
      Resolve(if i < |types| then types[i] else Unresolved, params[i]))
  }

  lemma ResolveConcat(ta: seq<FieldType>, tb: seq<FieldType>, pa: seq<Param>, pb: seq<Param>)
    requires |ta| == |pa|
    ensures ResolveTypedParams(ta + tb, pa + pb) == ResolveTypedParams(ta, pa) + ResolveTypedParams(tb, pb)
  {
  }

  function TypedParams(bs: seq<Bound>): (ps: seq<Param>)
    ensures |ps| == |bs| && forall i :: 0 <= i < |bs| ==> ps[i] == Typed(bs[i])
  {
    if bs == [] then [] else [Typed(bs[0])] + TypedParams(bs[1..])
  }

  function Wrapped(bs: seq<Bound>): (os: seq<Option<Bound>>)
    ensures |os| == |bs| && forall i :: 0 <= i < |bs| ==> os[i] == Some(bs[i])
  {
    seq(|bs|, i requires 0 <= i < |bs| => Some(bs[i]))
  }

  /** Resolving what a subquery resolved changes nothing, whatever the enclosing types. */
  lemma TypedParamsPassThrough(types: seq<FieldType>, bs: seq<Bound>)
    ensures ResolveTypedParams(types, TypedParams(bs)) == Wrapped(bs)
  {
  }

  /** `[x] * n`. */
  function Repeat<T>(x: T, n: nat): (s: seq<T>)
    ensures |s| == n && forall i :: 0 <= i < n ==> s[i] == x
  {
    seq(n, _ => x)
  }
}

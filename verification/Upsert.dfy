/**
 * INSERT and UPSERT of a batch of rows: which fields are written, how a row is
 * split into parameters and inline expressions, and what the table becomes.
 */
module Upsert {
  import opened Options
  import opened PyText
  import opened Placeholders
  import opened Lists
  import Parameters
  import TimeEncoding

  type Value = Parameters.PyValue

  const NULL := Parameters.NoneV

  datatype Field = Field(name: string, attname: string, column: string, nullable: bool, auto: bool,
                         ty: Parameters.FieldType)

  datatype Model = Model(pk: Field, concrete: seq<Field>)

  datatype Error = NotSupported | NotNullViolation | MissingParameter | WrongType

  datatype Result<+T> = Ok(value: T) | Err(error: Error)

  // ---- The fields of an UPSERT ----

  predicate Wanted(f: Field, wanted: set<string>) {
    f.name in wanted || f.attname in wanted
  }

  function SelectFields(fs: seq<Field>, pk: Field, wanted: set<string>): seq<Field> {
    if fs == [] then []
    else (if fs[0] != pk && Wanted(fs[0], wanted) then [fs[0]] else []) + SelectFields(fs[1..], pk, wanted)
  }

  function Missing(fs: seq<Field>, selected: seq<Field>): seq<Field> {
    if fs == [] then []
    else (if fs[0] !in selected && !fs[0].nullable then [fs[0]] else []) + Missing(fs[1..], selected)
  }

  /** `_upsert_fields`. */
  function UpsertFields(m: Model, updateFields: Option<set<string>>): Result<seq<Field>> {
    if updateFields.None? then Ok(m.concrete)
    else
      var selected := [m.pk] + SelectFields(m.concrete, m.pk, updateFields.value);
      if Missing(m.concrete, selected) != [] then Err(NotSupported) else Ok(selected)
  }

  predicate NoDuplicates<T(==)>(s: seq<T>) {
    forall i, j :: 0 <= i < j < |s| ==> s[i] != s[j]
  }

  lemma ConsNoDuplicates<T>(x: T, xs: seq<T>)
    requires NoDuplicates(xs) && x !in xs
    ensures NoDuplicates([x] + xs)
  {
    var all := [x] + xs;
    assert forall i :: 1 <= i < |all| ==> all[i] == xs[i - 1];
  }

  lemma TailNoDuplicates<T>(s: seq<T>)
    requires s != [] && NoDuplicates(s)
    ensures NoDuplicates(s[1..]) && s[0] !in s[1..]
    ensures forall x :: x in s <==> x == s[0] || x in s[1..]
  {
    assert forall i :: 0 <= i < |s[1..]| ==> s[1..][i] == s[i + 1];
  }

  lemma {:induction false} SelectFieldsMembers(fs: seq<Field>, pk: Field, wanted: set<string>)
    requires NoDuplicates(fs)
    ensures NoDuplicates(SelectFields(fs, pk, wanted))
    ensures forall f :: f in SelectFields(fs, pk, wanted) <==> f in fs && f != pk && Wanted(f, wanted)
  {
    if fs != [] {
      var rest := SelectFields(fs[1..], pk, wanted);
      TailNoDuplicates(fs);
      SelectFieldsMembers(fs[1..], pk, wanted);
      if fs[0] != pk && Wanted(fs[0], wanted) {
        ConsNoDuplicates(fs[0], rest);
      } else {
        Unit(rest);
      }
    }
  }

  lemma {:induction false} NothingMissing(fs: seq<Field>, selected: seq<Field>)
    ensures Missing(fs, selected) == [] <==> forall f :: f in fs && !f.nullable ==> f in selected
  {
    if fs != [] {
      NothingMissing(fs[1..], selected);
      assert forall f :: f in fs <==> f == fs[0] || f in fs[1..];
    }
  }

  /**
   * The fields of an UPSERT are the key, every NOT NULL field and the wanted
   * ones, each once; it is refused exactly when a NOT NULL field is not wanted.
   */
  lemma UpsertFieldsAreComplete(m: Model, wanted: set<string>)
    requires NoDuplicates(m.concrete)
    ensures UpsertFields(m, Some(wanted)).Err?
       <==> exists f :: f in m.concrete && f != m.pk && !f.nullable && !Wanted(f, wanted)
    ensures UpsertFields(m, Some(wanted)).Ok? ==>
              var fs := UpsertFields(m, Some(wanted)).value;
              && NoDuplicates(fs) && m.pk in fs
              && (forall f :: f in m.concrete && !f.nullable ==> f in fs)
              && (forall f :: f in fs <==> f == m.pk || (f in m.concrete && Wanted(f, wanted)))
  {
    var selected := [m.pk] + SelectFields(m.concrete, m.pk, wanted);
    SelectFieldsMembers(m.concrete, m.pk, wanted);
    ConsNoDuplicates(m.pk, SelectFields(m.concrete, m.pk, wanted));
    NothingMissing(m.concrete, selected);
  }

  // ---- Splitting a row ----

  /** A prepared value: its placeholder, and the parameters that fill it. */
  datatype Cell = Cell(placeholder: string, params: seq<Value>)

  predicate ValidCell(c: Cell) {
    HoleCount(c.placeholder) == |c.params|
  }

  /** A row of cells, one per field. */
  predicate ValidRow(fields: seq<Field>, row: seq<Cell>) {
    |row| == |fields| && forall i :: 0 <= i < |row| ==> ValidCell(row[i])
  }

  datatype Split = Split(values: seq<nat>, exprs: seq<nat>)

  /** `_split_fields`: the positions read from the parameter, and those whose SQL is inlined. */
  method SplitFields(row: seq<Cell>) returns (r: Result<Split>)
    ensures r.Err? <==> exists i :: 0 <= i < |row| && Unsupported(row[i])
    ensures r.Ok? ==> r.value == Split(ValuePositions(row, 0), ExprPositions(row, 0))
  {
    var values: seq<nat>, exprs: seq<nat> := [], [];
    for i := 0 to |row|
      invariant forall j :: 0 <= j < i ==> !Unsupported(row[j])
      invariant values + ValuePositions(row, i) == ValuePositions(row, 0)
      invariant exprs + ExprPositions(row, i) == ExprPositions(row, 0)
    {
      ValuesStep(values, row, i);
      ExprsStep(exprs, row, i);
      if row[i].placeholder == HOLE {
        values := values + [i];
      } else if Contains(row[i].placeholder, HOLE) {
        return Err(NotSupported);
      } else {
        exprs := exprs + [i];
      }
    }
    Unit(values);
    Unit(exprs);
    r := Ok(Split(values, exprs));
  }

  predicate IsValue(c: Cell) {
    c.placeholder == HOLE
  }

  /** An expression with parameters of its own. */
  predicate Unsupported(c: Cell) {
    c.placeholder != HOLE && Contains(c.placeholder, HOLE)
  }

  function ValuePositions(row: seq<Cell>, i: nat): seq<nat>
    requires i <= |row|
    decreases |row| - i
  {
    if i == |row| then [] else (if IsValue(row[i]) then [i] else []) + ValuePositions(row, i + 1)
  }

  function ExprPositions(row: seq<Cell>, i: nat): seq<nat>
    requires i <= |row|
    decreases |row| - i
  {
    if i == |row| then [] else (if IsValue(row[i]) then [] else [i]) + ExprPositions(row, i + 1)
  }

  lemma ValuesStep(values: seq<nat>, row: seq<Cell>, i: nat)
    requires i < |row|
    ensures values + ValuePositions(row, i)
         == (if IsValue(row[i]) then values + [i] else values) + ValuePositions(row, i + 1)
  {
    Assoc(values, [i], ValuePositions(row, i + 1));
    Unit(ValuePositions(row, i + 1));
  }

  lemma ExprsStep(exprs: seq<nat>, row: seq<Cell>, i: nat)
    requires i < |row|
    ensures exprs + ExprPositions(row, i)
         == (if IsValue(row[i]) then exprs else exprs + [i]) + ExprPositions(row, i + 1)
  {
    Assoc(exprs, [i], ExprPositions(row, i + 1));
    Unit(ExprPositions(row, i + 1));
  }

  lemma {:induction false} ValuePositionsMembers(row: seq<Cell>, i: nat)
    requires i <= |row|
    ensures forall k :: k in ValuePositions(row, i) <==> i <= k < |row| && IsValue(row[k])
    ensures NoDuplicates(ValuePositions(row, i))
    decreases |row| - i
  {
    if i < |row| {
      ValuePositionsMembers(row, i + 1);
      var rest := ValuePositions(row, i + 1);
      assert i !in rest;
      ConsNoDuplicates(i, rest);
      Unit(rest);
    }
  }

  lemma {:induction false} ExprPositionsMembers(row: seq<Cell>, i: nat)
    requires i <= |row|
    ensures forall k :: k in ExprPositions(row, i) <==> i <= k < |row| && !IsValue(row[k])
    ensures NoDuplicates(ExprPositions(row, i))
    decreases |row| - i
  {
    if i < |row| {
      ExprPositionsMembers(row, i + 1);
      var rest := ExprPositions(row, i + 1);
      assert i !in rest;
      ConsNoDuplicates(i, rest);
      Unit(rest);
    }
  }

  lemma {:induction false} PositionsCount(row: seq<Cell>, i: nat)
    requires i <= |row|
    ensures |ValuePositions(row, i)| + |ExprPositions(row, i)| == |row| - i
    decreases |row| - i
  {
    if i < |row| {
      PositionsCount(row, i + 1);
    }
  }

  /** `_split_fields` puts every field on exactly one side, once. */
  lemma PositionsPartition(row: seq<Cell>, i: nat)
    requires i <= |row|
    ensures forall k :: k in ValuePositions(row, i) <==> i <= k < |row| && IsValue(row[k])
    ensures forall k :: k in ExprPositions(row, i) <==> i <= k < |row| && !IsValue(row[k])
    ensures NoDuplicates(ValuePositions(row, i)) && NoDuplicates(ExprPositions(row, i))
    ensures |ValuePositions(row, i)| + |ExprPositions(row, i)| == |row| - i
  {
    ValuePositionsMembers(row, i);
    ExprPositionsMembers(row, i);
    PositionsCount(row, i);
  }

  // ---- The rows of the parameter ----

  predicate InRange(positions: seq<nat>, n: nat) {
    forall j :: 0 <= j < |positions| ==> positions[j] < n
  }

  /** All parameters of the value fields of a row, in one list (`assemble_as_sql`). */
  function ParamRow(row: seq<Cell>, positions: seq<nat>): seq<Value>
    requires InRange(positions, |row|)
  {
    if positions == [] then [] else row[positions[0]].params + ParamRow(row, positions[1..])
  }

  predicate NullForbidden(f: Field, v: Value) {
    v == NULL && !f.nullable && !f.auto
  }

  /** What the row holds for a value: integers as they are, datetimes and times as integers. */
  function Encoded(f: Field, v: Value): Result<Value> {
    if v == NULL || Parameters.IsInt(v) then Ok(v)
    else if f.ty.DateTimeField? then
      if v.DatetimeV? then Ok(Parameters.IntV(TimeEncoding.DatetimeToEpochUs(v.since))) else Err(WrongType)
    else if f.ty.TimeField? then
      if v.TimeV? then Ok(Parameters.IntV(TimeEncoding.TimeToMicros(v.t)))
      else if v.DatetimeV? then Ok(Parameters.IntV(TimeEncoding.TimeToMicros(TimeEncoding.TimeOf(v.since))))
      else Err(WrongType)
    else Ok(v)
  }

  /** The j-th value of a row, or the exception it raises. */
  function ValueAt(f: Field, params: seq<Value>, j: nat): Result<Value> {
    if j >= |params| then Err(MissingParameter)
    else if NullForbidden(f, params[j]) then Err(NotNullViolation)
    else Encoded(f, params[j])
  }

  /** A field whose column holds integers for datetimes or times. */
  predicate IsEncoded(f: Field) {
    f.ty.DateTimeField? || f.ty.TimeField?
  }

  /** The row holds `w` for `v`: the value itself, or the integer that is read back as it. */
  predicate Stores(f: Field, v: Value, w: Value) {
    Parameters.Keeps(IsEncoded(f), f.ty, v, w)
  }

  /** The values that a field can hold. */
  predicate Suitable(f: Field, v: Value) {
    match v
    case NoneV => f.nullable || f.auto
    case BoolV(_) => true
    case IntV(_) => true
    case DatetimeV(_) => true
    case TimeV(_) => !f.ty.DateTimeField?
    case _ => !IsEncoded(f)
  }

  /** What a row accepts, and what it stores then. */
  lemma ValueIsStored(f: Field, params: seq<Value>, j: nat)
    ensures ValueAt(f, params, j).Ok? <==> j < |params| && Suitable(f, params[j])
    ensures ValueAt(f, params, j).Ok? ==> Stores(f, params[j], ValueAt(f, params, j).value)
  {
    if j < |params| {
      match params[j]
      case TimeV(t) => Parameters.TimeReads(t);
      case DatetimeV(since) => Parameters.DatetimeReads(since);
      case _ =>
    }
  }

  /** Every value of the row suits its field. */
  predicate AllSuitable(fields: seq<Field>, positions: seq<nat>, params: seq<Value>)
    requires InRange(positions, |fields|)
  {
    |positions| <= |params| && forall j :: 0 <= j < |positions| ==> Suitable(fields[positions[j]], params[j])
  }

  /** What `_get_data` may make of a row: its values stored one by one, or an exception if one does not suit. */
  predicate IsRow(fields: seq<Field>, positions: seq<nat>, params: seq<Value>, r: Result<seq<Value>>)
    requires InRange(positions, |fields|)
  {
    && (r.Ok? <==> AllSuitable(fields, positions, params))
    && (r.Ok? ==>
          |r.value| == |positions|
          && forall j :: 0 <= j < |positions| ==> Stores(fields[positions[j]], params[j], r.value[j]))
  }

  /** `_get_data` for one row: the j-th value field takes the j-th parameter; the first that cannot raises. */
  method GetRow(fields: seq<Field>, positions: seq<nat>, params: seq<Value>) returns (r: Result<seq<Value>>)
    requires InRange(positions, |fields|)
    ensures r.Ok? ==> |r.value| == |positions|
                      && forall j :: 0 <= j < |positions| ==> ValueAt(fields[positions[j]], params, j) == Ok(r.value[j])
    ensures r.Err? ==> exists j :: 0 <= j < |positions| && ValueAt(fields[positions[j]], params, j) == Err(r.error)
                                   && forall i :: 0 <= i < j ==> ValueAt(fields[positions[i]], params, i).Ok?
    ensures IsRow(fields, positions, params, r)
  {
    var struct: seq<Value> := [];
    for j := 0 to |positions|
      invariant |struct| == j <= |params|
      invariant forall i :: 0 <= i < j ==> ValueAt(fields[positions[i]], params, i) == Ok(struct[i])
      invariant forall i :: 0 <= i < j ==> i < |params| && Suitable(fields[positions[i]], params[i])
                                           && Stores(fields[positions[i]], params[i], struct[i])
    {
      var f := fields[positions[j]];
      ValueIsStored(f, params, j);
      ghost var here := ValueAt(f, params, j);
      if j >= |params| { return Err(MissingParameter); }
      var v := params[j];
      if NullForbidden(f, v) { return Err(NotNullViolation); }
      if v != NULL && !Parameters.IsInt(v) {
        if f.ty.DateTimeField? {
          if !v.DatetimeV? { return Err(WrongType); }
          v := Parameters.IntV(TimeEncoding.DatetimeToEpochUs(v.since));
        } else if f.ty.TimeField? {
          if v.DatetimeV? {
            v := Parameters.IntV(TimeEncoding.TimeToMicros(TimeEncoding.TimeOf(v.since)));
          } else if v.TimeV? {
            v := Parameters.IntV(TimeEncoding.TimeToMicros(v.t));
          } else {
            return Err(WrongType);
          }
        }
      }
      assert here == Ok(v);
      struct := struct + [v];
    }
    r := Ok(struct);
  }

  /** A temporal value is stored by a row as a parameter of the same field would bind it, or refused by both. */
  lemma RowsStoreWhatParametersBind(f: Field, v: Value)
    requires (f.ty.DateTimeField? || f.ty.TimeField?) && v != NULL
    ensures Encoded(f, v).Ok? <==> Parameters.ResolveOne(f.ty, v).Some?
    ensures Encoded(f, v).Ok? ==> Encoded(f, v).value == Parameters.ResolveOne(f.ty, v).value.value
  {
  }

  /** A time that a row stores is read back as it was. */
  lemma StoredTimeIsReadBack(f: Field, t: TimeEncoding.TimeOfDay)
    requires f.ty.TimeField? && TimeEncoding.ValidTime(t)
    ensures Encoded(f, Parameters.TimeV(t)).Ok? && Encoded(f, Parameters.TimeV(t)).value.IntV?
    ensures TimeEncoding.ConvertTimefieldValue(Encoded(f, Parameters.TimeV(t)).value.i) == Some(t)
  {
    TimeEncoding.TimeRoundTrip(t);
  }

  /** What a column ends up holding: a parameter, the value of inlined SQL, or of an expression with parameters. */
  datatype Stored = Param(v: Value) | Inlined(sql: string) | Computed(sql: string, params: seq<Value>)

  function Intended(c: Cell): Stored
    requires ValidCell(c)
  {
    if IsValue(c) then Param(c.params[0])
    else if Contains(c.placeholder, HOLE) then Computed(c.placeholder, c.params)
    else Inlined(c.placeholder)
  }

  /**
   * What the statement writes for a row: insert columns and select columns are
   * both the value fields followed by the expression fields of the first row.
   */
  function Written(first: seq<Cell>, struct: seq<Value>): seq<Stored>
    requires |struct| == |ValuePositions(first, 0)|
  {
    seq(|struct|, j requires 0 <= j < |struct| => Param(struct[j]))
    + InlinedAt(first, ExprPositions(first, 0))
  }

  function InlinedAt(first: seq<Cell>, positions: seq<nat>): (ss: seq<Stored>)
    ensures |ss| == |positions|
  {
    if positions == [] then []
    else
      [Inlined(if positions[0] < |first| then first[positions[0]].placeholder else "")]
      + InlinedAt(first, positions[1..])
  }

  /** The fields in the order of the insert columns. */
  function ColumnOrder(first: seq<Cell>): seq<nat> {
    ValuePositions(first, 0) + ExprPositions(first, 0)
  }

  /** What is written is what was intended, a value as the field stores it. */
  predicate Fits(f: Field, intended: Stored, written: Stored) {
    if intended.Param? then written.Param? && Stores(f, intended.v, written.v) else written == intended
  }

  /** Every field of the row is written with its own value, under its own column. */
  predicate Faithful(fields: seq<Field>, first: seq<Cell>, row: seq<Cell>, struct: seq<Value>)
    requires |fields| == |row| == |first| && |struct| == |ValuePositions(first, 0)|
    requires forall i :: 0 <= i < |row| ==> ValidCell(row[i])
  {
    var order, written := ColumnOrder(first), Written(first, struct);
    |written| == |order|
    && forall j :: 0 <= j < |order| ==>
         order[j] < |row| && Fits(fields[order[j]], Intended(row[order[j]]), written[j])
  }

  /** The row has plain values and expressions where the first row has them. */
  predicate Alike(first: seq<Cell>, row: seq<Cell>) {
    |row| == |first| && forall i :: 0 <= i < |row| ==> row[i].placeholder == first[i].placeholder
  }

  lemma OneHole()
    ensures HoleCount(HOLE) == 1
  {
    assert HOLE[2..] == "";
  }

  lemma {:induction false} ParamRowOfValues(row: seq<Cell>, positions: seq<nat>)
    requires InRange(positions, |row|)
    requires forall j :: 0 <= j < |positions| ==> ValidCell(row[positions[j]]) && IsValue(row[positions[j]])
    ensures |ParamRow(row, positions)| == |positions|
    ensures forall j :: 0 <= j < |positions| ==> ParamRow(row, positions)[j] == Intended(row[positions[j]]).v
  {
    OneHole();
    if positions != [] {
      ParamRowOfValues(row, positions[1..]);
    }
  }

  lemma {:induction false} InlinedAtIndex(first: seq<Cell>, positions: seq<nat>, j: nat)
    requires j < |positions| && positions[j] < |first|
    ensures InlinedAt(first, positions)[j] == Inlined(first[positions[j]].placeholder)
  {
    if j > 0 {
      InlinedAtIndex(first, positions[1..], j - 1);
    }
  }

  lemma WrittenAt(first: seq<Cell>, struct: seq<Value>, j: nat)
    requires |struct| == |ValuePositions(first, 0)| && j < |ColumnOrder(first)|
    ensures |Written(first, struct)| == |ColumnOrder(first)| && ColumnOrder(first)[j] < |first|
    ensures var k := ColumnOrder(first)[j];
            if j < |struct| then IsValue(first[k]) && Written(first, struct)[j] == Param(struct[j])
            else !IsValue(first[k]) && Written(first, struct)[j] == Inlined(first[k].placeholder)
  {
    PositionsPartition(first, 0);
    var vs, es := ValuePositions(first, 0), ExprPositions(first, 0);
    if j < |vs| {
      assert vs[j] in vs;
    } else {
      assert es[j - |vs|] in es;
      InlinedAtIndex(first, es, j - |vs|);
    }
  }

  /** Where a field stands among the insert columns. */
  lemma PositionOf(first: seq<Cell>, i: nat) returns (j: nat)
    requires i < |first|
    ensures j < |ColumnOrder(first)| && ColumnOrder(first)[j] == i
  {
    PositionsPartition(first, 0);
    var vs, es := ValuePositions(first, 0), ExprPositions(first, 0);
    if IsValue(first[i]) {
      j :| 0 <= j < |vs| && vs[j] == i;
    } else {
      var p :| 0 <= p < |es| && es[p] == i;
      j := |vs| + p;
    }
  }

  /** A row that is written as intended has the placeholders of the first row. */
  lemma FaithfulIsAlike(fields: seq<Field>, first: seq<Cell>, row: seq<Cell>, struct: seq<Value>)
    requires |fields| == |row| == |first| && |struct| == |ValuePositions(first, 0)|
    requires forall i :: 0 <= i < |row| ==> ValidCell(row[i])
    requires Faithful(fields, first, row, struct)
    ensures Alike(first, row)
  {
    forall i | 0 <= i < |row|
      ensures row[i].placeholder == first[i].placeholder
    {
      SamePlaceholder(fields, first, row, struct, i);
    }
  }

  lemma SamePlaceholder(fields: seq<Field>, first: seq<Cell>, row: seq<Cell>, struct: seq<Value>, i: nat)
    requires |fields| == |row| == |first| && |struct| == |ValuePositions(first, 0)| && i < |row|
    requires forall k :: 0 <= k < |row| ==> ValidCell(row[k])
    requires Faithful(fields, first, row, struct)
    ensures row[i].placeholder == first[i].placeholder
  {
    var j := PositionOf(first, i);
    WrittenAt(first, struct, j);
    assert Fits(fields[i], Intended(row[i]), Written(first, struct)[j]);
  }

  /** A row with the placeholders of the first row is written as intended, if its values are stored. */
  lemma AlikeIsFaithful(fields: seq<Field>, first: seq<Cell>, row: seq<Cell>, struct: seq<Value>)
    requires |fields| == |row| && Alike(first, row)
    requires forall i :: 0 <= i < |row| ==> ValidCell(row[i]) && !Unsupported(row[i])
    requires |struct| == |ValuePositions(first, 0)| && InRange(ValuePositions(first, 0), |row|)
    requires |ParamRow(row, ValuePositions(first, 0))| == |struct|
    requires forall j :: 0 <= j < |struct| ==>
               Stores(fields[ValuePositions(first, 0)[j]], ParamRow(row, ValuePositions(first, 0))[j], struct[j])
    ensures Faithful(fields, first, row, struct)
  {
    AlikeParams(first, row);
    var vs, order := ValuePositions(first, 0), ColumnOrder(first);
    PositionsPartition(first, 0);
    assert |Written(first, struct)| == |order|;
    forall j | 0 <= j < |order|
      ensures order[j] < |row| && Fits(fields[order[j]], Intended(row[order[j]]), Written(first, struct)[j])
    {
      WrittenAt(first, struct, j);
      assert ValidCell(row[order[j]]) && !Unsupported(row[order[j]]);
      if j < |vs| { assert order[j] == vs[j]; }
    }
  }

  /** The value fields of the row suit their fields. */
  predicate ValuesSuit(fields: seq<Field>, row: seq<Cell>)
    requires ValidRow(fields, row)
  {
    forall i :: 0 <= i < |row| && IsValue(row[i]) ==> Suitable(fields[i], Intended(row[i]).v)
  }

  /**
   * A batch row is accepted and every field takes its own value exactly when the
   * row classifies like the first row and every value suits its field; `r` is
   * what `_get_data` makes of it.
   */
  lemma InsertIsFaithful(fields: seq<Field>, first: seq<Cell>, row: seq<Cell>, r: Result<seq<Value>>)
    requires ValidRow(fields, first) && ValidRow(fields, row)
    requires forall i :: 0 <= i < |first| ==> !Unsupported(first[i])
    requires InRange(ValuePositions(first, 0), |fields|)
    requires IsRow(fields, ValuePositions(first, 0), ParamRow(row, ValuePositions(first, 0)), r)
    ensures (r.Ok? && Faithful(fields, first, row, r.value)) <==> (Alike(first, row) && ValuesSuit(fields, row))
  {
    if r.Ok? && Faithful(fields, first, row, r.value) {
      FaithfulIsAlike(fields, first, row, r.value);
      AlikeIsAccepted(fields, first, row);
    }
    if Alike(first, row) && ValuesSuit(fields, row) {
      AlikeIsAccepted(fields, first, row);
      forall i | 0 <= i < |row|
        ensures ValidCell(row[i]) && !Unsupported(row[i])
      {
        assert !Unsupported(first[i]);
      }
      AlikeIsFaithful(fields, first, row, r.value);
    }
  }

  /** The positions of the first row are those of its fields. */
  lemma PositionsInRange(first: seq<Cell>)
    ensures InRange(ValuePositions(first, 0), |first|)
  {
    PositionsPartition(first, 0);
    var vs := ValuePositions(first, 0);
    assert forall j :: 0 <= j < |vs| ==> vs[j] in vs;
  }

  /** A row that classifies like the first one is refused only for values that do not suit their fields. */
  lemma AlikeIsAccepted(fields: seq<Field>, first: seq<Cell>, row: seq<Cell>)
    requires ValidRow(fields, first) && ValidRow(fields, row) && Alike(first, row)
    requires InRange(ValuePositions(first, 0), |fields|)
    ensures |ParamRow(row, ValuePositions(first, 0))| == |ValuePositions(first, 0)|
    ensures AllSuitable(fields, ValuePositions(first, 0), ParamRow(row, ValuePositions(first, 0)))
       <==> ValuesSuit(fields, row)
  {
    AlikeParams(first, row);
    var vs := ValuePositions(first, 0);
    var params := ParamRow(row, vs);
    if AllSuitable(fields, vs, params) {
      forall i | 0 <= i < |row| && IsValue(row[i])
        ensures Suitable(fields[i], Intended(row[i]).v)
      {
        var j :| 0 <= j < |vs| && vs[j] == i;
      }
    }
  }

  /** The parameters of a row like the first one are the values of its value fields. */
  lemma AlikeParams(first: seq<Cell>, row: seq<Cell>)
    requires Alike(first, row) && forall i :: 0 <= i < |row| ==> ValidCell(row[i])
    ensures InRange(ValuePositions(first, 0), |row|)
    ensures var vs := ValuePositions(first, 0);
            var params := ParamRow(row, vs);
            && |params| == |vs|
            && (forall j :: 0 <= j < |vs| ==> IsValue(row[vs[j]]) && params[j] == Intended(row[vs[j]]).v)
            && (forall i :: 0 <= i < |row| && IsValue(row[i]) ==> exists j :: 0 <= j < |vs| && vs[j] == i)
  {
    PositionsPartition(first, 0);
    var vs := ValuePositions(first, 0);
    forall j | 0 <= j < |vs|
      ensures vs[j] < |row| && IsValue(row[vs[j]])
    {
      assert vs[j] in vs;
    }
    ParamRowOfValues(row, vs);
    forall i | 0 <= i < |row| && IsValue(row[i])
      ensures exists j :: 0 <= j < |vs| && vs[j] == i
    {
      assert IsValue(first[i]) && i in vs;
    }
  }
}

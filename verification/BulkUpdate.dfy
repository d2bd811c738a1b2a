/**
 * A bulk UPDATE: one statement with a CASE per field, against assigning the
 * objects one after the other.
 */
module BulkUpdate {
  import opened Options

  type Value = int

  /** A row: its key, and its other columns; None is NULL. */
  datatype Row = Row(pk: int, cols: map<string, Option<Value>>)

  /** An object to be saved: its key and the values of its fields. */
  datatype Obj = Obj(pk: int, values: map<string, Option<Value>>)

  /** The fields to update, which of all columns are NOT NULL, and the objects. */
  datatype Bulk = Bulk(fields: seq<string>, notNull: set<string>, objs: seq<Obj>)

  ghost predicate ValidBulk(b: Bulk) {
    && (forall i, j :: 0 <= i < j < |b.fields| ==> b.fields[i] != b.fields[j])
    && (forall o, f :: o in b.objs && f in b.fields ==> f in o.values)
  }

  predicate DistinctKeys(objs: seq<Obj>) {
    forall i, j :: 0 <= i < j < |objs| ==> objs[i].pk != objs[j].pk
  }

  // ---- The single statement ----

  /** `CASE WHEN pk = k1 THEN v1 ... END`: the first branch that applies, else NULL. */
  function Case(objs: seq<Obj>, f: string, pk: int): Option<Value>
    requires forall o :: o in objs ==> f in o.values
  {
    if objs == [] then None
    else if objs[0].pk == pk then objs[0].values[f]
    else Case(objs[1..], f, pk)
  }

  function Coalesce(a: Option<Value>, b: Option<Value>): Option<Value> {
    if a.Some? then a else b
  }

  predicate Listed(objs: seq<Obj>, pk: int) {
    exists i :: 0 <= i < |objs| && objs[i].pk == pk
  }

  /** What SET assigns to a field; only a NOT NULL column falls back to itself. */
  function SetValue(b: Bulk, f: string, r: Row): Option<Value>
    requires ValidBulk(b) && f in b.fields && f in r.cols
  {
    if f in b.notNull then Coalesce(Case(b.objs, f, r.pk), r.cols[f]) else Case(b.objs, f, r.pk)
  }

  predicate HasFields(b: Bulk, r: Row) {
    forall f :: f in b.fields ==> f in r.cols
  }

  function UpdatedRow(b: Bulk, r: Row): Row
    requires ValidBulk(b) && HasFields(b, r)
  {
    if Listed(b.objs, r.pk) then
      Row(r.pk, map f | f in r.cols :: if f in b.fields then SetValue(b, f, r) else r.cols[f])
    else r
  }

  predicate TableHasFields(b: Bulk, table: seq<Row>) {
    forall i :: 0 <= i < |table| ==> HasFields(b, table[i])
  }

  function Updated(b: Bulk, table: seq<Row>): (t: seq<Row>)
    requires ValidBulk(b) && TableHasFields(b, table)
    ensures |t| == |table| && forall i :: 0 <= i < |t| ==> t[i] == UpdatedRow(b, table[i])
  {
    seq(|table|, i requires 0 <= i < |table| => UpdatedRow(b, table[i]))
  }

  /** The rows of RETURNING: one per row that satisfies `pk IN (...)`. */
  function Matched(objs: seq<Obj>, table: seq<Row>): nat {
    if table == [] then 0 else (if Listed(objs, table[0].pk) then 1 else 0) + Matched(objs, table[1..])
  }

  // ---- One assignment after the other ----

  function AssignRow(fields: seq<string>, o: Obj, r: Row): Row
    requires forall f :: f in fields ==> f in o.values
  {
    if o.pk == r.pk then
      Row(r.pk, map f | f in r.cols :: if f in fields then o.values[f] else r.cols[f])
    else r
  }

  function AssignedRow(fields: seq<string>, objs: seq<Obj>, r: Row): Row
    requires forall o, f :: o in objs && f in fields ==> f in o.values
  {
    if objs == [] then r else AssignedRow(fields, objs[1..], AssignRow(fields, objs[0], r))
  }

  function AssignAll(fields: seq<string>, o: Obj, table: seq<Row>): (t: seq<Row>)
    requires forall f :: f in fields ==> f in o.values
    ensures |t| == |table| && forall i :: 0 <= i < |t| ==> t[i] == AssignRow(fields, o, table[i])
  {
    seq(|table|, i requires 0 <= i < |table| => AssignRow(fields, o, table[i]))
  }

  function AssignEach(fields: seq<string>, objs: seq<Obj>, table: seq<Row>): seq<Row>
    requires forall o, f :: o in objs && f in fields ==> f in o.values
  {
    if objs == [] then table else AssignEach(fields, objs[1..], AssignAll(fields, objs[0], table))
  }

  function CountKey(pk: int, table: seq<Row>): nat {
    if table == [] then 0 else (if table[0].pk == pk then 1 else 0) + CountKey(pk, table[1..])
  }

  /** The counts the single assignments would report, added up. */
  function CountEach(objs: seq<Obj>, table: seq<Row>): nat {
    if objs == [] then 0 else CountKey(objs[0].pk, table) + CountEach(objs[1..], table)
  }

  // ---- They agree ----

  lemma {:induction false} AssignEachAt(fields: seq<string>, objs: seq<Obj>, table: seq<Row>, i: nat)
    requires forall o, f :: o in objs && f in fields ==> f in o.values
    requires i < |table|
    ensures |AssignEach(fields, objs, table)| == |table|
    ensures AssignEach(fields, objs, table)[i] == AssignedRow(fields, objs, table[i])
  {
    if objs != [] {
      AssignEachAt(fields, objs[1..], AssignAll(fields, objs[0], table), i);
    }
  }

  lemma {:induction false} UnlistedStays(fields: seq<string>, objs: seq<Obj>, r: Row)
    requires forall o, f :: o in objs && f in fields ==> f in o.values
    requires !Listed(objs, r.pk)
    ensures AssignedRow(fields, objs, r) == r
  {
    if objs != [] {
      assert objs[0].pk != r.pk;
      assert !Listed(objs[1..], r.pk) by {
        assert forall i :: 0 <= i < |objs[1..]| ==> objs[1..][i] == objs[i + 1];
      }
      UnlistedStays(fields, objs[1..], r);
    }
  }

  /** The value of the last object with this key. */
  function Last(objs: seq<Obj>, f: string, pk: int): Option<Value>
    requires forall o :: o in objs ==> f in o.values
  {
    if objs == [] then None
    else if Listed(objs[1..], pk) then Last(objs[1..], f, pk)
    else if objs[0].pk == pk then objs[0].values[f]
    else None
  }

  lemma ListedTail(objs: seq<Obj>, pk: int)
    requires objs != []
    ensures Listed(objs, pk) <==> objs[0].pk == pk || Listed(objs[1..], pk)
  {
    if Listed(objs, pk) && objs[0].pk != pk {
      var i :| 0 <= i < |objs| && objs[i].pk == pk;
      assert objs[1..][i - 1].pk == pk;
    }
    if Listed(objs[1..], pk) {
      var i :| 0 <= i < |objs[1..]| && objs[1..][i].pk == pk;
      assert objs[i + 1].pk == pk;
    }
  }

  /** A listed row ends with the value of the last object that meets it, in each field. */
  lemma {:induction false} ListedGetsLast(fields: seq<string>, objs: seq<Obj>, r: Row)
    requires forall o, f :: o in objs && f in fields ==> f in o.values
    requires Listed(objs, r.pk)
    ensures AssignedRow(fields, objs, r)
         == Row(r.pk, map f | f in r.cols :: if f in fields then Last(objs, f, r.pk) else r.cols[f])
  {
    var rest := objs[1..];
    ListedTail(objs, r.pk);
    if Listed(rest, r.pk) {
      ListedGetsLast(fields, rest, AssignRow(fields, objs[0], r));
    } else {
      UnlistedStays(fields, rest, AssignRow(fields, objs[0], r));
    }
  }

  /** In this field of this row SET assigns the value that the assignments in turn end with. */
  ghost predicate CellAgrees(b: Bulk, f: string, r: Row)
    requires ValidBulk(b) && f in b.fields && f in r.cols
  {
    SetValue(b, f, r) == Last(b.objs, f, r.pk)
  }

  ghost predicate RowAgrees(b: Bulk, r: Row)
    requires ValidBulk(b) && HasFields(b, r)
  {
    Listed(b.objs, r.pk) ==> forall f :: f in b.fields ==> CellAgrees(b, f, r)
  }

  lemma SameRowIff(b: Bulk, r: Row)
    requires ValidBulk(b) && HasFields(b, r)
    ensures UpdatedRow(b, r) == AssignedRow(b.fields, b.objs, r) <==> RowAgrees(b, r)
  {
    if Listed(b.objs, r.pk) {
      ListedGetsLast(b.fields, b.objs, r);
      var one, each := UpdatedRow(b, r), AssignedRow(b.fields, b.objs, r);
      forall f | f in b.fields
        ensures one.cols[f] == each.cols[f] <==> CellAgrees(b, f, r)
      {
      }
      if one.cols != each.cols {
        assert one.cols.Keys == each.cols.Keys;
        var f :| f in one.cols && one.cols[f] != each.cols[f];
        assert f in b.fields;
      }
    } else {
      UnlistedStays(b.fields, b.objs, r);
    }
  }

  /**
   * The single statement leaves the table that the assignments one by one would
   * leave, exactly when in every field of every listed row the first value for
   * its key, or what the row keeps instead of NULL, is the last value for it.
   */
  lemma BulkEqualsEach(b: Bulk, table: seq<Row>)
    requires ValidBulk(b) && TableHasFields(b, table)
    ensures Updated(b, table) == AssignEach(b.fields, b.objs, table)
       <==> forall i :: 0 <= i < |table| ==> RowAgrees(b, table[i])
  {
    var one, each := Updated(b, table), AssignEach(b.fields, b.objs, table);
    EachLength(b.fields, b.objs, table);
    forall i | 0 <= i < |table|
      ensures one[i] == each[i] <==> RowAgrees(b, table[i])
    {
      AssignEachAt(b.fields, b.objs, table, i);
      SameRowIff(b, table[i]);
    }
    assert one == each <==> forall i :: 0 <= i < |table| ==> one[i] == each[i];
  }

  // ---- Conditions on the batch alone ----

  /** The NOT NULL columns of a table hold no NULL. */
  ghost predicate Sane(notNull: set<string>, table: seq<Row>) {
    forall i, f :: 0 <= i < |table| && f in notNull && f in table[i].cols ==> table[i].cols[f].Some?
  }

  /** The values for a key agree wherever it is named again, and none is a NULL for a NOT NULL field. */
  ghost predicate Harmless(b: Bulk)
    requires ValidBulk(b)
  {
    forall o, f :: o in b.objs && f in b.fields ==>
      Case(b.objs, f, o.pk) == Last(b.objs, f, o.pk) && (f in b.notNull ==> Case(b.objs, f, o.pk).Some?)
  }

  /** A table of one row with this key, all of whose columns hold `v`. */
  function Witness(b: Bulk, pk: int, v: Value): seq<Row> {
    [Row(pk, map f | f in b.fields :: Some(v))]
  }

  lemma HarmlessRowAgrees(b: Bulk, r: Row)
    requires ValidBulk(b) && HasFields(b, r) && Harmless(b)
    ensures RowAgrees(b, r)
  {
    if Listed(b.objs, r.pk) {
      var i :| 0 <= i < |b.objs| && b.objs[i].pk == r.pk;
      assert b.objs[i] in b.objs;
    }
  }

  /** A key and a field that do harm do so in one of two tables. */
  lemma HarmShows(b: Bulk, o: Obj, f: string)
    requires ValidBulk(b) && o in b.objs && f in b.fields
    requires Case(b.objs, f, o.pk) != Last(b.objs, f, o.pk) || (f in b.notNull && Case(b.objs, f, o.pk).None?)
    ensures exists v: Value :: v in {0, 1} && !RowAgrees(b, Witness(b, o.pk, v)[0])
  {
    var i :| 0 <= i < |b.objs| && b.objs[i] == o;
    assert Listed(b.objs, o.pk);
    var v: Value := if Last(b.objs, f, o.pk) == Some(0) then 1 else 0;
    assert !CellAgrees(b, f, Witness(b, o.pk, v)[0]);
  }

  /** A batch may be written as a single statement, whatever the table holds, exactly when it is harmless. */
  lemma BulkIsSafeIff(b: Bulk)
    requires ValidBulk(b)
    ensures Harmless(b) <==>
              forall table :: TableHasFields(b, table) && Sane(b.notNull, table) ==>
                Updated(b, table) == AssignEach(b.fields, b.objs, table)
  {
    if Harmless(b) {
      forall table | TableHasFields(b, table)
        ensures Updated(b, table) == AssignEach(b.fields, b.objs, table)
      {
        forall i | 0 <= i < |table|
          ensures RowAgrees(b, table[i])
        {
          HarmlessRowAgrees(b, table[i]);
        }
        BulkEqualsEach(b, table);
      }
    } else {
      var o, f :| o in b.objs && f in b.fields
        && (Case(b.objs, f, o.pk) != Last(b.objs, f, o.pk) || (f in b.notNull && Case(b.objs, f, o.pk).None?));
      HarmShows(b, o, f);
      var v :| v in {0, 1} && !RowAgrees(b, Witness(b, o.pk, v)[0]);
      var table := Witness(b, o.pk, v);
      assert TableHasFields(b, table) && Sane(b.notNull, table);
      BulkEqualsEach(b, table);
    }
  }

  lemma {:induction false} FirstIsLast(objs: seq<Obj>, f: string, pk: int)
    requires DistinctKeys(objs) && forall o :: o in objs ==> f in o.values
    ensures Case(objs, f, pk) == Last(objs, f, pk)
  {
    if objs != [] {
      var rest := objs[1..];
      assert forall i :: 0 <= i < |rest| ==> rest[i] == objs[i + 1];
      ListedTail(objs, pk);
      FirstIsLast(rest, f, pk);
      if !Listed(rest, pk) { NotListed(rest, f, pk); }
    }
  }

  lemma {:induction false} NotListed(objs: seq<Obj>, f: string, pk: int)
    requires !Listed(objs, pk) && forall o :: o in objs ==> f in o.values
    ensures Case(objs, f, pk) == None
  {
    if objs != [] {
      ListedTail(objs, pk);
      NotListed(objs[1..], f, pk);
    }
  }

  /** No object that meets a row assigns NULL to a NOT NULL column. */
  ghost predicate NoNullForNotNull(b: Bulk, table: seq<Row>)
    requires ValidBulk(b)
  {
    forall i, f :: 0 <= i < |table| && Listed(b.objs, table[i].pk) && f in b.fields && f in b.notNull ==>
      Case(b.objs, f, table[i].pk).Some?
  }

  /** With distinct keys nothing but a NULL for a NOT NULL column makes a difference. */
  lemma DistinctBulkEqualsEach(b: Bulk, table: seq<Row>)
    requires ValidBulk(b) && DistinctKeys(b.objs) && TableHasFields(b, table) && Sane(b.notNull, table)
    ensures Updated(b, table) == AssignEach(b.fields, b.objs, table) <==> NoNullForNotNull(b, table)
  {
    BulkEqualsEach(b, table);
    forall i | 0 <= i < |table|
      ensures RowAgrees(b, table[i]) <==>
              (Listed(b.objs, table[i].pk) ==>
                forall f :: f in b.fields && f in b.notNull ==> Case(b.objs, f, table[i].pk).Some?)
    {
      var r := table[i];
      forall f | f in b.fields
        ensures CellAgrees(b, f, r) <==> (f in b.notNull ==> Case(b.objs, f, r.pk).Some?)
      {
        FirstIsLast(b.objs, f, r.pk);
        assert f in r.cols;
      }
    }
  }

  lemma {:induction false} EachLength(fields: seq<string>, objs: seq<Obj>, table: seq<Row>)
    requires forall o, f :: o in objs && f in fields ==> f in o.values
    ensures |AssignEach(fields, objs, table)| == |table|
  {
    if objs != [] {
      EachLength(fields, objs[1..], AssignAll(fields, objs[0], table));
    }
  }

  /** Whatever the objects hold, no NOT NULL column becomes NULL, and no other row or column changes. */
  lemma BulkKeepsTableSane(b: Bulk, table: seq<Row>)
    requires ValidBulk(b) && TableHasFields(b, table) && Sane(b.notNull, table)
    ensures Sane(b.notNull, Updated(b, table))
    ensures forall i, f :: 0 <= i < |table| && f in table[i].cols
                           && (f !in b.fields || !Listed(b.objs, table[i].pk)) ==>
              f in Updated(b, table)[i].cols && Updated(b, table)[i].cols[f] == table[i].cols[f]
  {
  }

  // ---- The count ----

  /** How many objects have this key. */
  function Times(objs: seq<Obj>, pk: int): nat {
    if objs == [] then 0 else (if objs[0].pk == pk then 1 else 0) + Times(objs[1..], pk)
  }

  /** How often rows are named again. */
  function Repeats(objs: seq<Obj>, table: seq<Row>): nat {
    if table == [] then 0
    else (if Times(objs, table[0].pk) > 1 then Times(objs, table[0].pk) - 1 else 0) + Repeats(objs, table[1..])
  }

  function TimesInAll(objs: seq<Obj>, table: seq<Row>): nat {
    if table == [] then 0 else Times(objs, table[0].pk) + TimesInAll(objs, table[1..])
  }

  lemma {:induction false} ListedIffNamed(objs: seq<Obj>, pk: int)
    ensures Listed(objs, pk) <==> Times(objs, pk) > 0
  {
    if objs != [] {
      ListedTail(objs, pk);
      ListedIffNamed(objs[1..], pk);
    }
  }

  lemma {:induction false} TimesOfNone(table: seq<Row>)
    ensures TimesInAll([], table) == 0
  {
    if table != [] {
      TimesOfNone(table[1..]);
    }
  }

  lemma {:induction false} TimesOfOneMore(objs: seq<Obj>, table: seq<Row>)
    requires objs != []
    ensures TimesInAll(objs, table) == CountKey(objs[0].pk, table) + TimesInAll(objs[1..], table)
  {
    if table != [] {
      TimesOfOneMore(objs, table[1..]);
    }
  }

  /** Counting by objects is counting by rows. */
  lemma {:induction false} CountEachIsTimes(objs: seq<Obj>, table: seq<Row>)
    ensures CountEach(objs, table) == TimesInAll(objs, table)
  {
    if objs == [] {
      TimesOfNone(table);
    } else {
      CountEachIsTimes(objs[1..], table);
      TimesOfOneMore(objs, table);
    }
  }

  lemma {:induction false} TimesSplit(objs: seq<Obj>, table: seq<Row>)
    ensures TimesInAll(objs, table) == Matched(objs, table) + Repeats(objs, table)
    ensures Repeats(objs, table) == 0 <==> forall i :: 0 <= i < |table| ==> Times(objs, table[i].pk) <= 1
  {
    if table != [] {
      ListedIffNamed(objs, table[0].pk);
      TimesSplit(objs, table[1..]);
      assert forall i :: 0 <= i < |table[1..]| ==> table[1..][i] == table[i + 1];
      assert (forall i :: 0 <= i < |table| ==> Times(objs, table[i].pk) <= 1)
          <==> Times(objs, table[0].pk) <= 1
               && forall i :: 0 <= i < |table[1..]| ==> Times(objs, table[1..][i].pk) <= 1;
    }
  }

  lemma {:induction false} DistinctNamedOnce(objs: seq<Obj>, pk: int)
    requires DistinctKeys(objs)
    ensures Times(objs, pk) <= 1
  {
    if objs != [] {
      var rest := objs[1..];
      assert forall i :: 0 <= i < |rest| ==> rest[i] == objs[i + 1];
      DistinctNamedOnce(rest, pk);
      ListedIffNamed(rest, pk);
    }
  }

  /**
   * The assignments one by one count what RETURNING counts, and once more every
   * time a row is named again; so the counts agree exactly when none is.
   */
  lemma CountsAgree(objs: seq<Obj>, table: seq<Row>)
    ensures CountEach(objs, table) == Matched(objs, table) + Repeats(objs, table)
    ensures Matched(objs, table) == CountEach(objs, table)
       <==> forall i :: 0 <= i < |table| ==> Times(objs, table[i].pk) <= 1
    ensures DistinctKeys(objs) ==> Matched(objs, table) == CountEach(objs, table)
  {
    CountEachIsTimes(objs, table);
    TimesSplit(objs, table);
    if DistinctKeys(objs) {
      forall i | 0 <= i < |table|
        ensures Times(objs, table[i].pk) <= 1
      {
        DistinctNamedOnce(objs, table[i].pk);
      }
    }
  }

  /** With a key listed twice CASE takes the first value, one by one the last. */
  lemma RepeatedKeyDiffers()
    ensures var b := Bulk(["f"], {}, [Obj(1, map["f" := Some(10)]), Obj(1, map["f" := Some(20)])]);
            var r := Row(1, map["f" := Some(0)]);
            && ValidBulk(b) && HasFields(b, r)
            && UpdatedRow(b, r) == Row(1, map["f" := Some(10)])
            && AssignedRow(b.fields, b.objs, r) == Row(1, map["f" := Some(20)])
  {
    var o1, o2 := Obj(1, map["f" := Some(10)]), Obj(1, map["f" := Some(20)]);
    var b := Bulk(["f"], {}, [o1, o2]);
    var r := Row(1, map["f" := Some(0)]);
    assert b.objs[0] == o1 && Listed(b.objs, 1);
    assert b.objs[1..] == [o2] && b.objs[1..][1..] == [];
    assert AssignedRow(b.fields, b.objs[1..], AssignRow(b.fields, o1, r))
        == AssignedRow(b.fields, b.objs[1..][1..], AssignRow(b.fields, o2, AssignRow(b.fields, o1, r)));
  }
}

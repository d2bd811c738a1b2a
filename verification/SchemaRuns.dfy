/** Over every run of migrations each model's table stays queryable. */
module SchemaRuns {
  import opened Options
  import opened SchemaEditor

  /**
   * The models by name, as the migrations declare them, the database, and
   * whether its driver lets parameters pass that a statement has no use for.
   */
  datatype State = State(models: map<string, Model>, db: Database, lenient: bool)

  datatype Operation =
    | CreateModel(id: string, model: Model)
    | DeleteModel(id: string)
    | AddField(id: string, field: Field)
    | RemoveField(id: string, index: nat)
    | AlterField(id: string, index: nat, field: Field)
    | RenameTable(id: string, name: string)

  function Tables(m: Model): seq<TableDef> {
    [m.main] + m.throughs
  }

  /** The model has this field, and the field has a column. */
  predicate Concrete(s: State, id: string, index: nat) {
    id in s.models && index < |s.models[id].main.fields| && s.models[id].main.fields[index].dbType.Some?
  }

  /** The operation speaks of models and fields that exist. */
  predicate Applicable(s: State, op: Operation) {
    match op
    case CreateModel(id, _) => id !in s.models
    case DeleteModel(id) => id in s.models
    case AddField(id, _) => id in s.models
    case RemoveField(id, index) => Concrete(s, id, index)
    case AlterField(id, index, field) => Concrete(s, id, index) && field.dbType.Some?
    case RenameTable(id, _) => id in s.models
  }

  function WithFields(m: Model, fields: seq<Field>): Model {
    m.(main := m.main.(fields := fields))
  }

  /** What the editor does to the database. */
  function DatabaseAfter(s: State, op: Operation): (Database, Outcome)
    requires Applicable(s, op)
  {
    match op
    case CreateModel(_, model) => CreateTables(s.db, Tables(model))
    case DeleteModel(id) => DropTables(s.db, s.models[id].throughs + [s.models[id].main])
    case AddField(id, field) => AfterAddField(s.lenient, s.db, s.models[id].main.name, field)
    case RemoveField(id, index) =>
      Applied(s.db, DropColumn(s.db, s.models[id].main.name, s.models[id].main.fields[index].column))
    case AlterField(id, index, field) =>
      AfterAlterField(s.db, s.models[id].main.name, s.models[id].main.fields[index], field)
    case RenameTable(id, name) => AfterRename(s.db, s.models[id].main.name, name)
  }

  /** What the migration declares. */
  function ModelsAfter(s: State, op: Operation): map<string, Model>
    requires Applicable(s, op)
  {
    match op
    case CreateModel(id, model) => s.models[id := model]
    case DeleteModel(id) => s.models - {id}
    case AddField(id, field) =>
      var m := s.models[id];
      s.models[id := WithFields(m, m.main.fields + [field])]
    case RemoveField(id, index) =>
      var m := s.models[id];
      s.models[id := WithFields(m, m.main.fields[..index] + m.main.fields[index + 1..])]
    case AlterField(id, index, field) =>
      var m := s.models[id];
      s.models[id := WithFields(m, m.main.fields[index := field])]
    case RenameTable(id, name) =>
      var m := s.models[id];
      s.models[id := m.(main := m.main.(name := name))]
  }

  /** A migration takes effect in the models only if the editor went through with it. */
  function Step(s: State, op: Operation): State
    requires Applicable(s, op)
  {
    var (db, o) := DatabaseAfter(s, op);
    s.(models := if o.Done? then ModelsAfter(s, op) else s.models, db := db)
  }

  // ---- Queryable ----

  function ColumnNames(fields: seq<Field>): set<string> {
    set f | f in fields && f.dbType.Some? :: f.column
  }

  /**
   * The table has exactly the columns of the fields, with their types and their
   * primary key, and takes NULL wherever the model allows it.
   */
  ghost predicate Matches(fields: seq<Field>, t: Table) {
    && DistinctColumns(fields)
    && t.columns.Keys == ColumnNames(fields)
    && t.pk == KeyOf(fields)
    && forall f :: f in fields && f.dbType.Some? ==>
         t.columns[f.column].ty == f.dbType.value && (f.nullable ==> t.columns[f.column].nullable)
  }

  ghost predicate Placed(t: TableDef, db: Database) {
    Fold(t.name) in db && Matches(t.fields, db[Fold(t.name)])
  }

  predicate DistinctNames(ts: seq<TableDef>) {
    forall i, j :: 0 <= i < j < |ts| ==> Fold(ts[i].name) != Fold(ts[j].name)
  }

  function NamesOf(ts: seq<TableDef>): set<string> {
    set t | t in ts :: Fold(t.name)
  }

  /** All tables of a model are there, and no two of them are the same. */
  ghost predicate Queryable(m: Model, db: Database) {
    DistinctNames(Tables(m)) && forall t :: t in Tables(m) ==> Placed(t, db)
  }

  /** Every model is queryable, and models share no table. */
  ghost predicate InStep(s: State) {
    && (forall id :: id in s.models ==> Queryable(s.models[id], s.db))
    && (forall id, other :: id in s.models && other in s.models && id != other ==>
          NamesOf(Tables(s.models[id])) !! NamesOf(Tables(s.models[other])))
  }

  // ---- Creating and dropping tables ----

  lemma {:induction false} ColumnsOfMatch(fields: seq<Field>)
    requires DistinctColumns(fields)
    ensures ColumnsOf(fields).Keys == ColumnNames(fields)
    ensures forall f :: f in fields && f.dbType.Some? ==>
              f.column in ColumnsOf(fields) && ColumnsOf(fields)[f.column] == ColumnOf(f)
  {
    if fields != [] {
      assert forall i :: 0 <= i < |fields[1..]| ==> fields[1..][i] == fields[i + 1];
      ColumnsOfMatch(fields[1..]);
      assert forall f :: f in fields <==> f == fields[0] || f in fields[1..];
    }
  }

  lemma DistinctCons(ts: seq<TableDef>)
    requires ts != [] && DistinctNames(ts[1..]) && Fold(ts[0].name) !in NamesOf(ts[1..])
    ensures DistinctNames(ts)
  {
    var rest := ts[1..];
    forall i, j | 0 <= i < j < |ts|
      ensures Fold(ts[i].name) != Fold(ts[j].name)
    {
      assert ts[j] == rest[j - 1] && rest[j - 1] in rest && Fold(ts[j].name) in NamesOf(rest);
      if i > 0 { assert Fold(rest[i - 1].name) != Fold(rest[j - 1].name); }
    }
  }

  lemma {:induction false} CreateTablesFrame(db: Database, ts: seq<TableDef>)
    ensures var (db', o) := CreateTables(db, ts);
            && (forall n :: n in db ==> n in db' && db'[n] == db[n])
            && (o.Done? ==> DistinctNames(ts) && NamesOf(ts) !! db.Keys && forall t :: t in ts ==> Placed(t, db'))
    decreases ts
  {
    if ts != [] && CreateTable(db, ts[0]).Some? {
      var next := CreateTable(db, ts[0]).value;
      CreateTablesFrame(next, ts[1..]);
      ColumnsOfMatch(ts[0].fields);
      var (db', o) := CreateTables(db, ts);
      if o.Done? {
        assert Fold(ts[0].name) in next && Placed(ts[0], next);
        DistinctCons(ts);
        forall t | t in ts
          ensures Placed(t, db') && Fold(t.name) !in db
        {
          if t != ts[0] {
            assert t in ts[1..] && Fold(t.name) in NamesOf(ts[1..]);
          }
        }
      }
    }
  }

  lemma {:induction false} DropTablesFrame(db: Database, ts: seq<TableDef>)
    ensures var (db', o) := DropTables(db, ts);
            forall n :: n in db && n !in NamesOf(ts) ==> n in db' && db'[n] == db[n]
    ensures DistinctNames(ts) && NamesOf(ts) <= db.Keys ==> DropTables(db, ts).1.Done?
    decreases ts
  {
    if ts != [] {
      assert ts[0] in ts && Fold(ts[0].name) in NamesOf(ts);
      assert forall t :: t in ts[1..] ==> t in ts;
      if DropTable(db, ts[0].name).Some? {
        var next := DropTable(db, ts[0].name).value;
        DropTablesFrame(next, ts[1..]);
        if DistinctNames(ts) && NamesOf(ts) <= db.Keys {
          assert forall i :: 0 <= i < |ts[1..]| ==> ts[1..][i] == ts[i + 1];
          forall t | t in ts[1..]
            ensures Fold(t.name) in next
          {
            assert Fold(t.name) in NamesOf(ts);
            var i :| 0 <= i < |ts[1..]| && ts[1..][i] == t;
            assert Fold(ts[0].name) != Fold(ts[i + 1].name);
          }
        }
      }
    }
  }

  lemma KeepsQueryable(m: Model, db: Database, db': Database)
    requires Queryable(m, db)
    requires forall n :: n in NamesOf(Tables(m)) && n in db ==> n in db' && db'[n] == db[n]
    ensures Queryable(m, db')
  {
    forall t | t in Tables(m)
      ensures Placed(t, db')
    {
      assert Placed(t, db) && Fold(t.name) in NamesOf(Tables(m));
    }
  }

  /** The tables of a model in step are in the database, other models' tables among them or not. */
  lemma NamesPlaced(m: Model, db: Database)
    requires Queryable(m, db)
    ensures NamesOf(Tables(m)) <= db.Keys
  {
    forall n | n in NamesOf(Tables(m))
      ensures n in db
    {
      var t :| t in Tables(m) && Fold(t.name) == n;
      assert Placed(t, db);
    }
  }

  lemma CreateKeepsStep(s: State, id: string, model: Model)
    requires InStep(s) && id !in s.models
    ensures InStep(Step(s, CreateModel(id, model)))
  {
    var op := CreateModel(id, model);
    var s' := Step(s, op);
    CreateTablesFrame(s.db, Tables(model));
    forall other | other in s.models
      ensures Queryable(s.models[other], s'.db)
      ensures NamesOf(Tables(s.models[other])) <= s.db.Keys
    {
      KeepsQueryable(s.models[other], s.db, s'.db);
      NamesPlaced(s.models[other], s.db);
    }
  }

  /** The tables of a model in the order in which they are dropped. */
  lemma DropOrder(m: Model)
    requires DistinctNames(Tables(m))
    ensures DistinctNames(m.throughs + [m.main]) && NamesOf(m.throughs + [m.main]) == NamesOf(Tables(m))
  {
    var ts, k := m.throughs + [m.main], |m.throughs|;
    assert forall t :: t in ts <==> t in Tables(m);
    forall i, j | 0 <= i < j < |ts|
      ensures Fold(ts[i].name) != Fold(ts[j].name)
    {
      assert ts[i] == Tables(m)[i + 1];
      assert ts[j] == Tables(m)[if j < k then j + 1 else 0];
    }
  }

  lemma DeleteKeepsStep(s: State, id: string)
    requires InStep(s) && id in s.models
    ensures InStep(Step(s, DeleteModel(id)))
    ensures DatabaseAfter(s, DeleteModel(id)).1.Done?
  {
    var m, s' := s.models[id], Step(s, DeleteModel(id));
    DropOrder(m);
    DropTablesFrame(s.db, m.throughs + [m.main]);
    NamesPlaced(m, s.db);
    forall other | other in s.models && other != id
      ensures Queryable(s.models[other], s'.db)
    {
      KeepsQueryable(s.models[other], s.db, s'.db);
    }
  }

  // ---- Changing one table ----

  /** Only the main table of one model changes, and fits its new fields. */
  lemma ChangeOneTable(s: State, id: string, fields: seq<Field>, t: Table)
    requires InStep(s) && id in s.models && Matches(fields, t)
    ensures InStep(s.(models := s.models[id := WithFields(s.models[id], fields)],
                      db := s.db[Fold(s.models[id].main.name) := t]))
  {
    var m := s.models[id];
    var n := Fold(m.main.name);
    var m', db' := WithFields(m, fields), s.db[n := t];
    var s' := s.(models := s.models[id := m'], db := db');
    assert Tables(m)[0] == m.main && m.main in Tables(m) && n in NamesOf(Tables(m));
    SameNames(m, m');
    forall u | u in Tables(m')
      ensures Placed(u, db')
    {
      if u != m'.main {
        var i :| 0 <= i < |m.throughs| && m.throughs[i] == u;
        assert Tables(m)[i + 1] == u && u in Tables(m);
        assert Fold(Tables(m)[0].name) != Fold(Tables(m)[i + 1].name);
      }
    }
    forall other | other in s.models && other != id
      ensures Queryable(s.models[other], db')
    {
      KeepsQueryable(s.models[other], s.db, db');
    }
  }

  lemma SameNames(m: Model, m': Model)
    requires m'.throughs == m.throughs && Fold(m'.main.name) == Fold(m.main.name)
    ensures NamesOf(Tables(m')) == NamesOf(Tables(m)) && (DistinctNames(Tables(m)) ==> DistinctNames(Tables(m')))
  {
    assert forall i :: 0 <= i < |Tables(m)| ==> Fold(Tables(m)[i].name) == Fold(Tables(m')[i].name);
    forall n
      ensures n in NamesOf(Tables(m)) <==> n in NamesOf(Tables(m'))
    {
      if n in NamesOf(Tables(m)) {
        var i :| 0 <= i < |Tables(m)| && Fold(Tables(m)[i].name) == n;
        assert Tables(m')[i] in Tables(m');
      }
      if n in NamesOf(Tables(m')) {
        var i :| 0 <= i < |Tables(m')| && Fold(Tables(m')[i].name) == n;
        assert Tables(m)[i] in Tables(m);
      }
    }
  }

  /**
   * The one operation that may part model and table: where the driver lets the
   * marker for a primary key pass, a column is added to the table, but its
   * primary key stays as it was.
   */
  predicate AddsKey(s: State, op: Operation)
    requires Applicable(s, op)
  {
    match op
    case AddField(id, field) =>
      s.lenient && field.dbType.Some? && field.primaryKey && Addable(field)
      && field.column !in ColumnNames(s.models[id].main.fields)
    case _ => false
  }

  lemma AddKeepsStep(s: State, id: string, field: Field)
    requires InStep(s) && Applicable(s, AddField(id, field)) && !AddsKey(s, AddField(id, field))
    ensures InStep(Step(s, AddField(id, field)))
  {
    var m := s.models[id];
    var n := Fold(m.main.name);
    assert m.main in Tables(m) && Placed(m.main, s.db);
    var (db', o) := AfterAddField(s.lenient, s.db, m.main.name, field);
    if o.Done? {
      assert field.dbType.Some? ==> !field.primaryKey;
      var fields := m.main.fields + [field];
      assert forall f :: f in fields <==> f in m.main.fields || f == field;
      assert db' == s.db[n := db'[n]];
      AddedMatches(m.main.fields, s.db[n], field, db'[n]);
      ChangeOneTable(s, id, fields, db'[n]);
    }
  }

  lemma AddedMatches(fields: seq<Field>, t: Table, field: Field, t': Table)
    requires Matches(fields, t) && (field.dbType.Some? ==> !field.primaryKey)
    requires field.dbType.None? ==> t' == t
    requires field.dbType.Some? ==>
               field.column !in t.columns && t' == t.(columns := t.columns[field.column := ColumnOf(field)])
    ensures Matches(fields + [field], t')
  {
    var all := fields + [field];
    assert forall f :: f in all <==> f in fields || f == field;
    forall i, j | 0 <= i < j < |all| && all[i].dbType.Some? && all[j].dbType.Some?
      ensures all[i].column != all[j].column
    {
      if j == |fields| { assert all[i] in fields && all[i].column in ColumnNames(fields); }
    }
    if field.dbType.Some? {
      assert ColumnNames(all) == ColumnNames(fields) + {field.column};
      forall f | f in fields && f.dbType.Some?
        ensures f.column != field.column
      {
        assert f.column in ColumnNames(fields);
      }
    }
  }

  lemma RemoveKeepsStep(s: State, id: string, index: nat)
    requires InStep(s) && Applicable(s, RemoveField(id, index))
    ensures InStep(Step(s, RemoveField(id, index)))
  {
    var m := s.models[id];
    var n, field := Fold(m.main.name), m.main.fields[index];
    assert m.main in Tables(m) && Placed(m.main, s.db);
    var dropped := DropColumn(s.db, m.main.name, field.column);
    if dropped.Some? {
      assert dropped.value == s.db[n := dropped.value[n]];
      var fields := m.main.fields[..index] + m.main.fields[index + 1..];
      RemovedMatches(m.main.fields, s.db[n], index);
      ChangeOneTable(s, id, fields, dropped.value[n]);
    }
  }

  lemma RestMembers(fields: seq<Field>, index: nat)
    requires DistinctColumns(fields) && index < |fields| && fields[index].dbType.Some?
    ensures var rest := fields[..index] + fields[index + 1..];
            && DistinctColumns(rest)
            && (forall f :: f in rest ==> f in fields && (f.dbType.Some? ==> f.column != fields[index].column))
            && (forall f :: f in fields ==> f in rest || f == fields[index])
  {
    var rest, field := fields[..index] + fields[index + 1..], fields[index];
    assert forall k :: 0 <= k < |rest| ==> rest[k] == fields[if k < index then k else k + 1];
    forall f | f in fields
      ensures f in rest || f == field
    {
      var k :| 0 <= k < |fields| && fields[k] == f;
      if k < index { assert rest[k] == f; }
      if k > index { assert rest[k - 1] == f; }
    }
    forall f | f in rest
      ensures f in fields && (f.dbType.Some? ==> f.column != field.column)
    {
      var k :| 0 <= k < |rest| && rest[k] == f;
      assert fields[if k < index then k else k + 1] == f;
    }
  }

  lemma RemovedMatches(fields: seq<Field>, t: Table, index: nat)
    requires Matches(fields, t) && index < |fields|
    requires fields[index].column in t.columns && fields[index].column !in t.pk
    requires fields[index].dbType.Some?
    ensures Matches(fields[..index] + fields[index + 1..], t.(columns := t.columns - {fields[index].column}))
  {
    var rest, field := fields[..index] + fields[index + 1..], fields[index];
    RestMembers(fields, index);
    assert field in fields;
    assert ColumnNames(rest) == ColumnNames(fields) - {field.column};
    assert KeyOf(rest) == KeyOf(fields);
  }

  lemma AlterKeepsStep(s: State, id: string, index: nat, field: Field)
    requires InStep(s) && Applicable(s, AlterField(id, index, field))
    ensures InStep(Step(s, AlterField(id, index, field)))
  {
    var m := s.models[id];
    var n, old_ := Fold(m.main.name), m.main.fields[index];
    assert m.main in Tables(m) && Placed(m.main, s.db);
    assert old_ in m.main.fields && old_.column in ColumnNames(m.main.fields);
    var (db', o) := AfterAlterField(s.db, m.main.name, old_, field);
    AlteredTable(s.db, m.main.name, old_, field);
    if o.Done? {
      AlteredMatches(m.main.fields, s.db[n], index, field, db'[n]);
      ChangeOneTable(s, id, m.main.fields[index := field], db'[n]);
    } else {
      assert WithFields(m, m.main.fields) == m && s.models[id := m] == s.models;
      RelaxedMatches(m.main.fields, s.db[n], db'[n]);
      ChangeOneTable(s, id, m.main.fields, db'[n]);
    }
  }

  /** Nothing changes but that the column may take NULL afterwards, and its indexes. */
  ghost predicate Relaxed(t: Table, column: string, t': Table) {
    && t'.pk == t.pk && t'.columns.Keys == t.columns.Keys
    && (forall c :: c in t.columns && c != column ==> t'.columns[c] == t.columns[c])
    && (column in t.columns ==>
          t'.columns[column].ty == t.columns[column].ty
          && (t.columns[column].nullable ==> t'.columns[column].nullable))
  }

  lemma AlteredTable(db: Database, table: string, old_: Field, new_: Field)
    requires Fold(table) in db && old_.column in db[Fold(table)].columns
    ensures var (db', o) := AfterAlterField(db, table, old_, new_);
            var n := Fold(table);
            && n in db' && db' == db[n := db'[n]] && Relaxed(db[n], new_.column, db'[n])
            && (o.Done? && !old_.nullable && new_.nullable ==> db'[n].columns[new_.column].nullable)
  {
  }

  lemma RelaxedMatches(fields: seq<Field>, t: Table, t': Table)
    requires Matches(fields, t) && exists column :: Relaxed(t, column, t')
    ensures Matches(fields, t')
  {
    var column :| Relaxed(t, column, t');
    forall f | f in fields && f.dbType.Some?
      ensures t'.columns[f.column].ty == f.dbType.value && (f.nullable ==> t'.columns[f.column].nullable)
    {
      assert f.column in ColumnNames(fields);
    }
  }

  lemma AlteredMatches(fields: seq<Field>, t: Table, index: nat, field: Field, t': Table)
    requires Matches(fields, t) && index < |fields|
    requires fields[index].dbType.Some? && field.dbType.Some? && Alterable(fields[index], field)
    requires field.column in t.columns && Relaxed(t, field.column, t')
    requires !fields[index].nullable && field.nullable ==> t'.columns[field.column].nullable
    ensures Matches(fields[index := field], t')
  {
    AlteredNames(fields, index, field);
    AlteredKey(fields, index, field);
    AlteredDistinct(fields, index, field);
    forall f | f in fields[index := field] && f.dbType.Some?
      ensures t'.columns[f.column].ty == f.dbType.value && (f.nullable ==> t'.columns[f.column].nullable)
    {
      if f == field {
        assert fields[index] in fields;
      } else {
        assert f in fields && f.column in ColumnNames(fields) && f.column != field.column;
      }
    }
  }

  lemma AlteredDistinct(fields: seq<Field>, index: nat, field: Field)
    requires DistinctColumns(fields) && index < |fields|
    requires fields[index].dbType.Some? && fields[index].column == field.column
    ensures DistinctColumns(fields[index := field])
    ensures forall f :: f in fields[index := field] && f != field ==>
              f in fields && (f.dbType.Some? ==> f.column != field.column)
  {
    AlteredMembers(fields, index, field);
  }

  lemma AlteredKey(fields: seq<Field>, index: nat, field: Field)
    requires index < |fields| && fields[index].dbType.Some? && field.dbType.Some?
    requires Alterable(fields[index], field)
    ensures KeyOf(fields[index := field]) == KeyOf(fields)
  {
    AlteredMembers(fields, index, field);
  }

  lemma AlteredNames(fields: seq<Field>, index: nat, field: Field)
    requires index < |fields| && fields[index].dbType.Some? && field.dbType.Some?
    requires fields[index].column == field.column
    ensures ColumnNames(fields[index := field]) == ColumnNames(fields)
  {
    AlteredMembers(fields, index, field);
  }

  lemma AlteredMembers(fields: seq<Field>, index: nat, field: Field)
    requires index < |fields|
    ensures var all := fields[index := field];
            && field in all && fields[index] in fields
            && (forall f :: f in all ==> f == field || exists k :: 0 <= k < |fields| && k != index && fields[k] == f)
            && (forall f :: f in fields ==> f in all || f == fields[index])
  {
    var all := fields[index := field];
    assert all[index] == field;
    forall f | f in fields
      ensures f in all || f == fields[index]
    {
      var k :| 0 <= k < |fields| && fields[k] == f;
      if k != index { assert all[k] == f; }
    }
  }

  lemma RenameKeepsStep(s: State, id: string, name: string)
    requires InStep(s) && id in s.models
    ensures InStep(Step(s, RenameTable(id, name)))
  {
    var m := s.models[id];
    var was, will := Fold(m.main.name), Fold(name);
    var s' := Step(s, RenameTable(id, name));
    assert m.main in Tables(m) && Placed(m.main, s.db);
    if was == will {
      RenamedSame(s, id, name);
    } else if will !in s.db {
      RenamedOther(s, id, name, s'.db);
    }
  }

  /** A rename that differs in case only leaves the database alone. */
  lemma RenamedSame(s: State, id: string, name: string)
    requires InStep(s) && id in s.models && Fold(name) == Fold(s.models[id].main.name)
    ensures InStep(s.(models := s.models[id := s.models[id].(main := s.models[id].main.(name := name))]))
  {
    var m := s.models[id];
    var m' := m.(main := m.main.(name := name));
    SameNames(m, m');
    assert m.main in Tables(m) && Placed(m.main, s.db);
    forall u | u in Tables(m')
      ensures Placed(u, s.db)
    {
      if u != m'.main {
        assert u in m.throughs && u in Tables(m);
      }
    }
  }

  lemma RenamedOther(s: State, id: string, name: string, db': Database)
    requires InStep(s) && id in s.models && Fold(name) !in s.db
    requires Fold(s.models[id].main.name) in s.db
    requires db' == (s.db - {Fold(s.models[id].main.name)})[Fold(name) := s.db[Fold(s.models[id].main.name)]]
    ensures InStep(s.(models := s.models[id := s.models[id].(main := s.models[id].main.(name := name))], db := db'))
  {
    var m := s.models[id];
    var was, will := Fold(m.main.name), Fold(name);
    var m' := m.(main := m.main.(name := name));
    NamesPlaced(m, s.db);
    assert m.main in Tables(m) && was in NamesOf(Tables(m));
    RenamedTables(m, name, s.db, db');
    forall other | other in s.models && other != id
      ensures Queryable(s.models[other], db')
      ensures NamesOf(Tables(m')) !! NamesOf(Tables(s.models[other]))
    {
      NamesPlaced(s.models[other], s.db);
      KeepsQueryable(s.models[other], s.db, db');
    }
  }

  /** The tables of the renamed model itself. */
  lemma RenamedTables(m: Model, name: string, db: Database, db': Database)
    requires Queryable(m, db) && Fold(name) !in db && Fold(m.main.name) in db
    requires db' == (db - {Fold(m.main.name)})[Fold(name) := db[Fold(m.main.name)]]
    ensures var m' := m.(main := m.main.(name := name));
            Queryable(m', db') && NamesOf(Tables(m')) <= NamesOf(Tables(m)) + {Fold(name)}
  {
    var was, will := Fold(m.main.name), Fold(name);
    var m' := m.(main := m.main.(name := name));
    assert Tables(m)[0] == m.main && m.main in Tables(m) && Placed(m.main, db);
    forall u | u in m.throughs
      ensures Fold(u.name) != was && Fold(u.name) != will && Placed(u, db') && Fold(u.name) in NamesOf(Tables(m))
    {
      var i :| 0 <= i < |m.throughs| && m.throughs[i] == u;
      assert Tables(m)[i + 1] == u && u in Tables(m);
      assert Fold(Tables(m)[0].name) != Fold(Tables(m)[i + 1].name);
      assert Placed(u, db);
    }
    RenamedDistinct(m, name);
    forall u | u in Tables(m')
      ensures Placed(u, db') && (Fold(u.name) == will || Fold(u.name) in NamesOf(Tables(m)))
    {
      if u != m'.main { assert u in m.throughs; }
    }
  }

  lemma RenamedDistinct(m: Model, name: string)
    requires DistinctNames(Tables(m)) && forall u :: u in m.throughs ==> Fold(u.name) != Fold(name)
    ensures DistinctNames(Tables(m.(main := m.main.(name := name))))
  {
    var ts := Tables(m.(main := m.main.(name := name)));
    forall i, j | 0 <= i < j < |ts|
      ensures Fold(ts[i].name) != Fold(ts[j].name)
    {
      assert ts[j] == Tables(m)[j] && ts[j] in m.throughs;
      if i > 0 { assert ts[i] == Tables(m)[i]; }
    }
  }

  // ---- Runs ----

  /** An operation keeps models and tables in step, whatever its outcome, exactly when it adds no primary-key column. */
  lemma StepKeepsStep(s: State, op: Operation)
    requires InStep(s) && Applicable(s, op)
    ensures InStep(Step(s, op)) <==> !AddsKey(s, op)
  {
    if AddsKey(s, op) {
      AddedKeyDiverges(s, op.id, op.field);
    } else {
      OtherKeepsStep(s, op);
    }
  }

  lemma OtherKeepsStep(s: State, op: Operation)
    requires InStep(s) && Applicable(s, op) && !AddsKey(s, op)
    ensures InStep(Step(s, op))
  {
    match op
    case CreateModel(id, model) => CreateKeepsStep(s, id, model);
    case DeleteModel(id) => DeleteKeepsStep(s, id);
    case AddField(id, field) => AddKeepsStep(s, id, field);
    case RemoveField(id, index) => RemoveKeepsStep(s, id, index);
    case AlterField(id, index, field) => AlterKeepsStep(s, id, index, field);
    case RenameTable(id, name) => RenameKeepsStep(s, id, name);
  }

  /** A run of migrations, each applicable when its turn comes. */
  predicate IsRun(states: seq<State>, ops: seq<Operation>) {
    && |states| == |ops| + 1 && states[0].models == map[]
    && forall i :: 0 <= i < |ops| ==> Applicable(states[i], ops[i]) && states[i + 1] == Step(states[i], ops[i])
  }

  lemma {:induction false} InStepUpTo(states: seq<State>, ops: seq<Operation>, i: nat)
    requires IsRun(states, ops) && i < |states|
    requires forall j :: 0 <= j < i ==> !AddsKey(states[j], ops[j])
    ensures InStep(states[i])
  {
    if i > 0 {
      InStepUpTo(states, ops, i - 1);
      StepKeepsStep(states[i - 1], ops[i - 1]);
    }
  }

  /**
   * From a database without models, whatever tables it has, all models stay
   * queryable throughout a run exactly when no step of it adds a primary-key column.
   */
  lemma RunsStayInStep(states: seq<State>, ops: seq<Operation>)
    requires IsRun(states, ops)
    ensures (forall i :: 0 <= i < |states| ==> InStep(states[i]))
       <==> (forall i :: 0 <= i < |ops| ==> !AddsKey(states[i], ops[i]))
  {
    if forall i :: 0 <= i < |ops| ==> !AddsKey(states[i], ops[i]) {
      forall i | 0 <= i < |states|
        ensures InStep(states[i])
      {
        InStepUpTo(states, ops, i);
      }
    }
    if forall i :: 0 <= i < |states| ==> InStep(states[i]) {
      forall i | 0 <= i < |ops|
        ensures !AddsKey(states[i], ops[i])
      {
        StepKeepsStep(states[i], ops[i]);
        assert InStep(states[i + 1]);
      }
    }
  }

  lemma {:induction false} SameDriver(states: seq<State>, ops: seq<Operation>, i: nat)
    requires IsRun(states, ops) && i < |states|
    ensures states[i].lenient == states[0].lenient
  {
    if i > 0 {
      SameDriver(states, ops, i - 1);
      assert states[i] == Step(states[i - 1], ops[i - 1]);
    }
  }

  /** With a driver that rejects such parameters every run stays in step. */
  lemma StrictRunsStayInStep(states: seq<State>, ops: seq<Operation>, i: nat)
    requires IsRun(states, ops) && !states[0].lenient && i < |states|
    ensures InStep(states[i])
  {
    forall j | 0 <= j < |ops|
      ensures !AddsKey(states[j], ops[j])
    {
      SameDriver(states, ops, j);
    }
    RunsStayInStep(states, ops);
  }

  /** A refused operation changes nothing, and these are the refused ones. */
  lemma RefusalLeavesDatabase(s: State, op: Operation)
    requires Applicable(s, op)
    ensures DatabaseAfter(s, op).1 == NotSupported ==> Step(s, op) == s
    ensures DatabaseAfter(s, op).1 == NotSupported <==>
              match op
              case AddField(_, field) => field.dbType.Some? && !field.nullable && !CanBeWritten(field.default)
              case AlterField(id, index, field) =>
                var old_ := s.models[id].main.fields[index];
                old_.column != field.column || old_.dbType != field.dbType || old_.primaryKey != field.primaryKey
              case _ => false
  {
    match op
    case CreateModel(_, model) => NeverRefused(s.db, Tables(model));
    case DeleteModel(id) => NeverRefused(s.db, s.models[id].throughs + [s.models[id].main]);
    case AddField(_, field) => DefaultIsRead(field.default);
    case _ =>
  }

  lemma {:induction false} NeverRefused(db: Database, ts: seq<TableDef>)
    ensures CreateTables(db, ts).1 != NotSupported && DropTables(db, ts).1 != NotSupported
    decreases ts
  {
    if ts != [] {
      if CreateTable(db, ts[0]).Some? { NeverRefused(CreateTable(db, ts[0]).value, ts[1..]); }
      if DropTable(db, ts[0].name).Some? { NeverRefused(DropTable(db, ts[0].name).value, ts[1..]); }
    }
  }

  lemma {:induction false} CreateTablesIff(db: Database, ts: seq<TableDef>)
    ensures CreateTables(db, ts).1.Done? <==>
              && DistinctNames(ts) && NamesOf(ts) !! db.Keys
              && forall t :: t in ts ==> DistinctColumns(t.fields) && KeyOf(t.fields) != {}
    decreases ts
  {
    CreateTablesFrame(db, ts);
    if ts != [] {
      assert ts[0] in ts && Fold(ts[0].name) in NamesOf(ts);
      assert forall t :: t in ts <==> t == ts[0] || t in ts[1..];
      if CreateTable(db, ts[0]).Some? {
        CreateTablesIff(CreateTable(db, ts[0]).value, ts[1..]);
        RestIsCreated(db, ts);
      }
    }
  }

  /** After the first table, the others have to keep clear of it. */
  lemma RestIsCreated(db: Database, ts: seq<TableDef>)
    requires ts != [] && CreateTable(db, ts[0]).Some?
    ensures DistinctNames(ts) && NamesOf(ts) !! db.Keys <==>
            DistinctNames(ts[1..]) && NamesOf(ts[1..]) !! CreateTable(db, ts[0]).value.Keys
  {
    var n, rest := Fold(ts[0].name), ts[1..];
    assert NamesOf(ts) == {n} + NamesOf(rest) by {
      assert forall t :: t in ts <==> t == ts[0] || t in rest;
    }
    if DistinctNames(ts) {
      assert forall i :: 0 <= i < |rest| ==> rest[i] == ts[i + 1];
      forall t | t in rest
        ensures Fold(t.name) != n
      {
        var i :| 0 <= i < |rest| && rest[i] == t;
        assert Fold(ts[0].name) != Fold(ts[i + 1].name);
      }
    }
    if DistinctNames(rest) && n !in NamesOf(rest) {
      DistinctCons(ts);
    }
  }

  /** What an operation needs to go through, where models and tables are in step. */
  predicate Feasible(s: State, op: Operation)
    requires Applicable(s, op)
  {
    match op
    case CreateModel(_, model) =>
      && DistinctNames(Tables(model)) && NamesOf(Tables(model)) !! s.db.Keys
      && forall t :: t in Tables(model) ==> DistinctColumns(t.fields) && KeyOf(t.fields) != {}
    case DeleteModel(_) => true
    case AddField(id, field) =>
      field.dbType.None?
      || (&& (field.nullable || CanBeWritten(field.default)) && (field.primaryKey ==> s.lenient)
          && field.column !in ColumnNames(s.models[id].main.fields))
    case RemoveField(id, index) =>
      s.models[id].main.fields[index].column !in KeyOf(s.models[id].main.fields)
    case AlterField(id, index, field) =>
      var old_ := s.models[id].main.fields[index];
      && old_.column == field.column && old_.dbType == field.dbType && old_.primaryKey == field.primaryKey
      && !DropsKeyIndex(s, id, index, field)
    case RenameTable(id, name) => Fold(name) == Fold(s.models[id].main.name) || Fold(name) !in s.db
  }

  /** In step, exactly the feasible operations go through. */
  lemma GoesThroughIff(s: State, op: Operation)
    requires InStep(s) && Applicable(s, op)
    ensures DatabaseAfter(s, op).1.Done? <==> Feasible(s, op)
  {
    match op
    case CreateModel(_, model) => CreateTablesIff(s.db, Tables(model));
    case DeleteModel(id) => DeleteKeepsStep(s, id);
    case AlterField(id, index, field) => AlterationSucceeds(s, id, index, field);
    case AddField(id, field) =>
      DefaultIsRead(field.default);
      MainIsPlaced(s, id);
    case RemoveField(id, index) =>
      MainIsPlaced(s, id);
      assert s.models[id].main.fields[index].column in ColumnNames(s.models[id].main.fields);
    case RenameTable(id, _) => MainIsPlaced(s, id);
  }

  lemma MainIsPlaced(s: State, id: string)
    requires InStep(s) && id in s.models
    ensures Placed(s.models[id].main, s.db)
  {
    assert s.models[id].main in Tables(s.models[id]);
  }

  // ---- What goes through has just this effect ----

  /** A table as its definition has it, without indexes yet. */
  ghost predicate AsDeclared(t: TableDef, table: Table) {
    && table.columns.Keys == ColumnNames(t.fields) && table.indexes == map[]
    && (forall f :: f in t.fields && f.dbType.Some? ==> table.columns[f.column] == Column(f.dbType.value, f.nullable))
    && (forall c :: c in table.pk <==> exists f :: f in t.fields && f.dbType.Some? && f.primaryKey && f.column == c)
  }

  lemma {:induction false} CreatedAsDeclared(db: Database, ts: seq<TableDef>)
    requires CreateTables(db, ts).1.Done?
    ensures var db' := CreateTables(db, ts).0;
            && db'.Keys == db.Keys + NamesOf(ts) && (forall n :: n in db ==> db'[n] == db[n])
            && forall t :: t in ts ==> AsDeclared(t, db'[Fold(t.name)])
    decreases ts
  {
    if ts != [] {
      var next := CreateTable(db, ts[0]).value;
      CreatedAsDeclared(next, ts[1..]);
      CreateTablesFrame(next, ts[1..]);
      ColumnsOfMatch(ts[0].fields);
      assert forall t :: t in ts <==> t == ts[0] || t in ts[1..];
      assert AsDeclared(ts[0], next[Fold(ts[0].name)]);
      assert NamesOf(ts) == {Fold(ts[0].name)} + NamesOf(ts[1..]);
    }
  }

  lemma {:induction false} DroppedTables(db: Database, ts: seq<TableDef>)
    requires DropTables(db, ts).1.Done?
    ensures DropTables(db, ts).0 == db - NamesOf(ts)
    decreases ts
  {
    if ts != [] {
      DroppedTables(DropTable(db, ts[0].name).value, ts[1..]);
      assert forall t :: t in ts <==> t == ts[0] || t in ts[1..];
      assert NamesOf(ts) == {Fold(ts[0].name)} + NamesOf(ts[1..]);
    }
  }

  /** Only this table changed. */
  ghost predicate OnlyChanged(db: Database, db': Database, n: string) {
    n in db && db'.Keys == db.Keys && forall other :: other in db && other != n ==> db'[other] == db[other]
  }

  /** The table of the altered field: NOT NULL dropped, or the indexes on just this column, or neither. */
  ghost predicate Altered(old_: Field, new_: Field, t: Table, t': Table) {
    && t'.pk == t.pk && t'.columns.Keys == t.columns.Keys && old_.column in t.columns
    && (forall c :: c in t.columns && c != old_.column ==> t'.columns[c] == t.columns[c])
    && t'.columns[old_.column] == (if !old_.nullable && new_.nullable then t.columns[old_.column].(nullable := true)
                                   else t.columns[old_.column])
    && (forall i :: i in t'.indexes <==>
          i in t.indexes && !(old_.dbIndex && !new_.dbIndex && t.indexes[i] == [old_.column]))
    && forall i :: i in t'.indexes ==> t'.indexes[i] == t.indexes[i]
  }

  /** Tables are created as declared, columns added as declared and dropped, and nothing else is touched. */
  lemma EffectOfOperation(s: State, op: Operation)
    requires InStep(s) && Applicable(s, op) && DatabaseAfter(s, op).1.Done?
    ensures var db' := DatabaseAfter(s, op).0;
            match op
            case CreateModel(_, model) =>
              && db'.Keys == s.db.Keys + NamesOf(Tables(model)) && (forall n :: n in s.db ==> db'[n] == s.db[n])
              && forall t :: t in Tables(model) ==> AsDeclared(t, db'[Fold(t.name)])
            case DeleteModel(id) => db' == s.db - NamesOf(s.models[id].throughs + [s.models[id].main])
            case AddField(id, field) =>
              var n := Fold(s.models[id].main.name);
              if field.dbType.None? then db' == s.db
              else
                OnlyChanged(s.db, db', n) && db'[n].pk == s.db[n].pk && db'[n].indexes == s.db[n].indexes
                && field.column !in s.db[n].columns
                && db'[n].columns == s.db[n].columns[field.column := Column(field.dbType.value, field.nullable)]
            case RemoveField(id, index) =>
              var n, m := Fold(s.models[id].main.name), s.models[id].main;
              OnlyChanged(s.db, db', n) && db'[n].pk == s.db[n].pk && db'[n].indexes == s.db[n].indexes
              && db'[n].columns == s.db[n].columns - {m.fields[index].column}
            case AlterField(id, index, field) =>
              var n, m := Fold(s.models[id].main.name), s.models[id].main;
              OnlyChanged(s.db, db', n) && Altered(m.fields[index], field, s.db[n], db'[n])
            case RenameTable(id, name) =>
              var n, to := Fold(s.models[id].main.name), Fold(name);
              n in s.db
              && if n == to then db' == s.db else to !in s.db && db' == (s.db - {n})[to := s.db[n]]
  {
    match op
    case CreateModel(_, model) => CreatedAsDeclared(s.db, Tables(model));
    case DeleteModel(id) => DroppedTables(s.db, s.models[id].throughs + [s.models[id].main]);
    case AddField(id, _) => MainIsPlaced(s, id);
    case RemoveField(id, _) => MainIsPlaced(s, id);
    case AlterField(id, index, field) =>
      MainIsPlaced(s, id);
      AlterationEffect(s.db, s.models[id].main.name, s.models[id].main.fields[index], field);
    case RenameTable(id, _) => MainIsPlaced(s, id);
  }

  lemma AlterationEffect(db: Database, table: string, old_: Field, new_: Field)
    requires AfterAlterField(db, table, old_, new_).1.Done? && Fold(table) in db
    requires old_.column in db[Fold(table)].columns
    ensures var db', n := AfterAlterField(db, table, old_, new_).0, Fold(table);
            OnlyChanged(db, db', n) && Altered(old_, new_, db[n], db'[n])
  {
  }

  /** The alteration is to drop the index of a field that is the whole primary key. */
  predicate DropsKeyIndex(s: State, id: string, index: nat, field: Field)
    requires Concrete(s, id, index)
  {
    var m := s.models[id].main;
    && m.fields[index].dbIndex && !field.dbIndex && KeyOf(m.fields) == {m.fields[index].column}
    && Fold(m.name) in s.db && PRIMARY_KEY !in s.db[Fold(m.name)].indexes
  }

  /**
   * In step, an alteration goes through, whatever was skipped before it, exactly
   * when it is not refused and does not drop the index of the key field: for
   * that, the editor drops an index `primary_key` that there is not.
   */
  lemma AlterationSucceeds(s: State, id: string, index: nat, field: Field)
    requires InStep(s) && Applicable(s, AlterField(id, index, field))
    ensures DatabaseAfter(s, AlterField(id, index, field)).1 == Done
       <==> Alterable(s.models[id].main.fields[index], field) && !DropsKeyIndex(s, id, index, field)
  {
    var m := s.models[id];
    assert m.main in Tables(m) && Placed(m.main, s.db);
    assert m.main.fields[index] in m.main.fields && m.main.fields[index].column in ColumnNames(m.main.fields);
  }

  /** A model created with an indexed primary key, whose index is then to go: the migration fails. */
  lemma KeyIndexCannotBeDropped(lenient: bool)
    ensures var key := Field("id", Some("Int64"), false, true, true, true, NoDefault);
            var model := Model(TableDef("t", [key], []), []);
            var create, alter := CreateModel("m", model), AlterField("m", 0, key.(dbIndex := false));
            var s := State(map[], map[], lenient);
            && Applicable(s, create) && DatabaseAfter(s, create).1 == Done
            && Applicable(Step(s, create), alter) && DatabaseAfter(Step(s, create), alter).1 == DatabaseError
  {
    var key := Field("id", Some("Int64"), false, true, true, true, NoDefault);
    var main := TableDef("t", [key], []);
    var create, alter := CreateModel("m", Model(main, [])), AlterField("m", 0, key.(dbIndex := false));
    var s := State(map[], map[], lenient);
    assert [key][1..] == [] && key in [key];
    assert KeyOf([key]) == {"id"};
    assert Tables(Model(main, [])) == [main];
    OneTable(s.db, main);
    CreateKeepsStep(s, "m", Model(main, []));
    AlterationSucceeds(Step(s, create), "m", 0, key.(dbIndex := false));
  }

  lemma OneTable(db: Database, t: TableDef)
    requires CreateTable(db, t).Some?
    ensures CreateTables(db, [t]) == (CreateTable(db, t).value, Done)
  {
    assert [t][1..] == [];
  }

  /** After a primary-key column was added, the table has its old key and the model a new one. */
  lemma AddedKeyDiverges(s: State, id: string, field: Field)
    requires InStep(s) && Applicable(s, AddField(id, field)) && AddsKey(s, AddField(id, field))
    ensures DatabaseAfter(s, AddField(id, field)).1.Done?
    ensures !Queryable(Step(s, AddField(id, field)).models[id], Step(s, AddField(id, field)).db)
  {
    var m, s' := s.models[id], Step(s, AddField(id, field));
    assert m.main in Tables(m) && Placed(m.main, s.db);
    var main' := s'.models[id].main;
    assert main' in Tables(s'.models[id]);
    assert field in main'.fields && field.column in KeyOf(main'.fields);
    KeysAreColumns(m.main.fields);
  }

  lemma KeysAreColumns(fields: seq<Field>)
    ensures KeyOf(fields) <= ColumnNames(fields)
  {
    forall c | c in KeyOf(fields)
      ensures c in ColumnNames(fields)
    {
      var f :| f in fields && f.dbType.Some? && f.primaryKey && f.column == c;
    }
  }
}

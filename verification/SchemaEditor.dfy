/**
 * The schema editor as a state machine: the models of a project and the tables
 * of the database change together, and the tables stay queryable.
 */
module SchemaEditor {
  import opened Lists
  import opened Options
  import ConstantTerms

  /** The default of a field, as `_default_literal` tells values apart. */
  datatype Default = NoDefault | BoolDefault(b: bool) | NumberDefault(text: string) | EnumDefault(of: Default)
                   | StringDefault(s: string) | OtherDefault

  /** A model field; a field without a database type has no column. */
  datatype Field = Field(column: string, dbType: Option<string>, nullable: bool, primaryKey: bool, unique: bool,
                         dbIndex: bool, default: Default)

  /** A table as a model describes it, with the columns of each index in `Meta.indexes`. */
  datatype TableDef = TableDef(name: string, fields: seq<Field>, indexes: seq<seq<string>>)

  /** A model with its auto-created many-to-many tables. */
  datatype Model = Model(main: TableDef, throughs: seq<TableDef>)

  datatype Column = Column(ty: string, nullable: bool)

  /** The indexes of a table are listed by name, with the columns they are on. */
  datatype Table = Table(columns: map<string, Column>, pk: set<string>, indexes: map<string, seq<string>>)

  /** Tables by name; names that differ in case only are the same. */
  type Database = map<string, Table>

  function Fold(name: string): string {
    if name == "" then ""
    else [if 'A' <= name[0] <= 'Z' then (name[0] as int + 32) as char else name[0]] + Fold(name[1..])
  }

  predicate SameLetter(a: char, b: char) {
    a == b || ('A' <= a <= 'Z' && b as int == a as int + 32) || ('A' <= b <= 'Z' && a as int == b as int + 32)
  }

  /** Names are the same exactly when they differ in the case of letters only. */
  lemma {:induction false} FoldIff(a: string, b: string)
    ensures |Fold(a)| == |a|
    ensures Fold(a) == Fold(b) <==> |a| == |b| && forall i :: 0 <= i < |a| ==> SameLetter(a[i], b[i])
  {
    if a != [] && b != [] {
      FoldIff(a[1..], b[1..]);
      assert Fold(a)[0] == Fold(b)[0] <==> SameLetter(a[0], b[0]);
      assert Fold(a)[1..] == Fold(a[1..]) && Fold(b)[1..] == Fold(b[1..]);
      assert forall i :: 1 <= i < |a| ==> a[i] == a[1..][i - 1];
      assert forall i :: 1 <= i < |b| ==> b[i] == b[1..][i - 1];
      assert Fold(a) == [Fold(a)[0]] + Fold(a[1..]) && Fold(b) == [Fold(b)[0]] + Fold(b[1..]);
    } else if a != [] {
      FoldIff(a[1..], b);
    }
  }

  // ---- What the database accepts ----

  predicate DistinctColumns(fields: seq<Field>) {
    forall i, j :: 0 <= i < j < |fields| && fields[i].dbType.Some? && fields[j].dbType.Some? ==>
      fields[i].column != fields[j].column
  }

  /** `column_sql`: the column a field defines. */
  function ColumnOf(f: Field): Column
    requires f.dbType.Some?
  {
    Column(f.dbType.value, f.nullable)
  }

  function ColumnsOf(fields: seq<Field>): map<string, Column> {
    if fields == [] then map[]
    else
      var rest := ColumnsOf(fields[1..]);
      if fields[0].dbType.None? then rest else rest[fields[0].column := ColumnOf(fields[0])]
  }

  function KeyOf(fields: seq<Field>): set<string> {
    set f | f in fields && f.dbType.Some? && f.primaryKey :: f.column
  }

  /** CREATE TABLE; None when the database rejects it. */
  function CreateTable(db: Database, t: TableDef): Option<Database> {
    if Fold(t.name) in db || !DistinctColumns(t.fields) || KeyOf(t.fields) == {} then None
    else Some(db[Fold(t.name) := Table(ColumnsOf(t.fields), KeyOf(t.fields), map[])])
  }

  function DropTable(db: Database, name: string): Option<Database> {
    if Fold(name) in db then Some(db - {Fold(name)}) else None
  }

  function AddColumn(db: Database, name: string, f: Field): Option<Database>
    requires f.dbType.Some?
  {
    var n := Fold(name);
    if n !in db || f.column in db[n].columns then None
    else Some(db[n := db[n].(columns := db[n].columns[f.column := ColumnOf(f)])])
  }

  function DropColumn(db: Database, name: string, column: string): Option<Database> {
    var n := Fold(name);
    if n !in db || column !in db[n].columns || column in db[n].pk then None
    else Some(db[n := db[n].(columns := db[n].columns - {column})])
  }

  function RenameTable(db: Database, old_: string, new_: string): Option<Database> {
    if Fold(old_) !in db || Fold(new_) in db then None
    else Some((db - {Fold(old_)})[Fold(new_) := db[Fold(old_)]])
  }

  function DropNotNull(db: Database, name: string, column: string): Option<Database> {
    var n := Fold(name);
    if n !in db || column !in db[n].columns then None
    else
      var c := db[n].columns[column].(nullable := true);
      Some(db[n := db[n].(columns := db[n].columns[column := c])])
  }

  function DropIndex(db: Database, name: string, index: string): Option<Database> {
    var n := Fold(name);
    if n !in db || index !in db[n].indexes then None
    else Some(db[n := db[n].(indexes := db[n].indexes - {index})])
  }

  const PRIMARY_KEY := "primary_key"

  /** Introspection lists the primary key among the indexes, though there is none of that name to drop. */
  predicate KeyListed(t: Table, column: string) {
    t.pk == {column} && PRIMARY_KEY !in t.indexes
  }

  /** `_constraint_names(model, [column], index=True)`. */
  function IndexNames(t: Table, column: string): set<string> {
    (set i | i in t.indexes && t.indexes[i] == [column]) + if KeyListed(t, column) then {PRIMARY_KEY} else {}
  }

  /** The table without the indexes on just this column. */
  function WithoutIndexes(t: Table, column: string): Table {
    t.(indexes := t.indexes - IndexNames(t, column))
  }

  // ---- What the editor refuses ----

  function DefaultLiteral(d: Default): Option<string> {
    match d
    case BoolDefault(b) => Some(if b then "true" else "false")
    case NumberDefault(text) => Some(text)
    case EnumDefault(of) => DefaultLiteral(of)
    case StringDefault(s) => Some(QuoteString(s))
    case _ => None
  }

  /** `_quote_string`. */
  function QuoteString(s: string): string {
    "'" + ConstantTerms.Doubled(s) + "'"
  }

  /** The literal is read as one token, and as the string it was made from. */
  lemma QuotedStringIsRead(s: string)
    ensures ConstantTerms.LiteralLength(QuoteString(s)) == |QuoteString(s)|
    ensures ConstantTerms.Undoubled(QuoteString(s)[1..|QuoteString(s)| - 1]) == s
  {
    ConstantTerms.LiteralIsLexed(s, "", "");
    ConstantTerms.UndoubledDoubled(s);
    var q := QuoteString(s);
    assert q + "" + "" == q;
    assert ConstantTerms.RenderToken(ConstantTerms.Literal(s, "")) == q;
    assert q + "" == q;
    assert q[1..|q| - 1] == ConstantTerms.Doubled(s);
  }

  /** The value that an enumeration holds. */
  function Innermost(d: Default): Default {
    if d.EnumDefault? then Innermost(d.of) else d
  }

  /** Booleans, numbers and strings can be written down. */
  predicate CanBeWritten(d: Default) {
    var v := Innermost(d);
    v.BoolDefault? || v.NumberDefault? || v.StringDefault?
  }

  /** How YQL reads a literal. */
  function ReadDefault(text: string): Default {
    if text == "true" || text == "false" then BoolDefault(text == "true")
    else if |text| >= 2 && text[0] == '\'' then StringDefault(ConstantTerms.Undoubled(text[1..|text| - 1]))
    else NumberDefault(text)
  }

  /** What `str` makes of a number starts with a digit or a sign, or is `inf` or `nan`. */
  predicate NumberText(text: string) {
    text != "" && text[0] != '\'' && text[0] != 't' && text[0] != 'f'
  }

  /** Exactly what can be written down has a literal, and the literal is read as the default itself. */
  lemma {:induction false} DefaultIsRead(d: Default)
    ensures DefaultLiteral(d).Some? <==> CanBeWritten(d)
    ensures DefaultLiteral(d).Some? && (Innermost(d).NumberDefault? ==> NumberText(Innermost(d).text)) ==>
              ReadDefault(DefaultLiteral(d).value) == Innermost(d)
  {
    if d.EnumDefault? {
      DefaultIsRead(d.of);
    } else if d.StringDefault? {
      QuotedStringIsRead(d.s);
      assert QuoteString(d.s)[0] == '\'';
    }
  }

  /** A NOT NULL column can be added only with a default that can be written down. */
  predicate Addable(f: Field) {
    f.nullable || DefaultLiteral(f.default).Some?
  }

  /** `db_params["type"] or ""`. */
  function TypeName(f: Field): string {
    if f.dbType.Some? then f.dbType.value else ""
  }

  /** The alterations that leave model and table in step; the others are refused. */
  predicate Alterable(old_: Field, new_: Field) {
    old_.column == new_.column
    && TypeName(old_) == TypeName(new_)
    && old_.primaryKey == new_.primaryKey
  }

  datatype Outcome = Done | NotSupported | DatabaseError

  /** A deferred statement: an index on a table, or a text that no table is known of. */
  datatype Deferred = IndexOn(table: string, columns: seq<string>) | Text(sql: string)

  /** `_model_indexes_sql`. */
  function IndexesOf(t: TableDef): seq<Deferred> {
    IndexedColumns(t.name, t.fields) + MetaIndexes(t.name, t.indexes)
  }

  /** Django makes no index for a field that is unique, as a primary key is. */
  predicate ShouldBeIndexed(f: Field) {
    f.dbIndex && !f.unique && !f.primaryKey
  }

  /** `_field_indexes_sql`, field by field. */
  function IndexedColumns(table: string, fields: seq<Field>): seq<Deferred> {
    if fields == [] then []
    else
      (if ShouldBeIndexed(fields[0]) then [IndexOn(table, [fields[0].column])] else [])
      + IndexedColumns(table, fields[1..])
  }

  function MetaIndexes(table: string, indexes: seq<seq<string>>): seq<Deferred> {
    if indexes == [] then [] else [IndexOn(table, indexes[0])] + MetaIndexes(table, indexes[1..])
  }

  /** The indexes of a table are those of its plain indexed fields and those of `Meta.indexes`. */
  lemma IndexesOfMembers(t: TableDef)
    ensures forall d :: d in IndexesOf(t) <==>
              && d.IndexOn? && d.table == t.name
              && (d.columns in t.indexes
                  || exists f :: f in t.fields && f.dbIndex && !f.unique && !f.primaryKey && d.columns == [f.column])
  {
    IndexedColumnsMembers(t.name, t.fields);
    MetaIndexesMembers(t.name, t.indexes);
  }

  lemma {:induction false} IndexedColumnsMembers(table: string, fields: seq<Field>)
    ensures forall d :: d in IndexedColumns(table, fields) <==>
              && d.IndexOn? && d.table == table
              && exists f :: f in fields && f.dbIndex && !f.unique && !f.primaryKey && d.columns == [f.column]
  {
    if fields != [] {
      IndexedColumnsMembers(table, fields[1..]);
      assert forall f :: f in fields <==> f == fields[0] || f in fields[1..];
    }
  }

  lemma {:induction false} MetaIndexesMembers(table: string, indexes: seq<seq<string>>)
    ensures forall d :: d in MetaIndexes(table, indexes) <==> d.IndexOn? && d.table == table && d.columns in indexes
  {
    if indexes != [] {
      MetaIndexesMembers(table, indexes[1..]);
      assert forall c :: c in indexes <==> c == indexes[0] || c in indexes[1..];
    }
  }

  /** What `column_sql` hands back beside the definition: a marker for a primary key. */
  datatype Marker = KeyMarker(field: Field)

  function MarkersOf(f: Field): seq<Marker> {
    if f.primaryKey then [KeyMarker(f)] else []
  }

  predicate References(d: Deferred, table: string) {
    d.IndexOn? && d.table == table
  }

  function WithoutTable(ds: seq<Deferred>, table: string): seq<Deferred> {
    if ds == [] then []
    else (if References(ds[0], table) then [] else [ds[0]]) + WithoutTable(ds[1..], table)
  }

  lemma {:induction false} WithoutTableMembers(ds: seq<Deferred>, table: string)
    ensures forall x :: x in WithoutTable(ds, table) <==> x in ds && !References(x, table)
  {
    if ds != [] {
      assert forall x :: x in ds <==> x == ds[0] || x in ds[1..];
      WithoutTableMembers(ds[1..], table);
    }
  }

  lemma {:induction false} WithoutTableSnoc(ds: seq<Deferred>, d: Deferred, table: string)
    ensures WithoutTable(ds + [d], table) == WithoutTable(ds, table) + if References(d, table) then [] else [d]
  {
    var last := if References(d, table) then [] else [d];
    if ds == [] {
      Single(d);
      Unit([d]);
      Unit(last);
    } else {
      Cons(ds, [d]);
      WithoutTableSnoc(ds[1..], d, table);
      Assoc(if References(ds[0], table) then [] else [ds[0]], WithoutTable(ds[1..], table), last);
    }
  }

  /** `list.remove(x)`: the first occurrence goes. */
  function RemoveFirst<T(==)>(s: seq<T>, x: T): seq<T> {
    if s == [] then [] else if s[0] == x then s[1..] else [s[0]] + RemoveFirst(s[1..], x)
  }

  lemma {:induction false} RemoveAfter<T>(a: seq<T>, x: T, b: seq<T>)
    requires x !in a
    ensures RemoveFirst(a + [x] + b, x) == a + b
  {
    if a == [] {
      assert a + [x] + b == [x] + b && a + b == b;
    } else {
      assert (a + [x] + b)[1..] == a[1..] + [x] + b;
      RemoveAfter(a[1..], x, b);
      assert [a[0]] + (a[1..] + b) == a + b;
    }
  }

  /** Going on by one statement, whether it is removed or stays. */
  lemma ForgetStep(all: seq<Deferred>, i: nat, table: string)
    requires i < |all|
    ensures var now, next := WithoutTable(all[..i], table) + all[i..], WithoutTable(all[..i + 1], table) + all[i + 1..];
            next == if References(all[i], table) then RemoveFirst(now, all[i]) else now
  {
    var kept, d, rest := WithoutTable(all[..i], table), all[i], all[i + 1..];
    assert all[..i + 1] == all[..i] + [d];
    WithoutTableSnoc(all[..i], d, table);
    assert kept + all[i..] == kept + [d] + rest;
    if References(d, table) {
      WithoutTableMembers(all[..i], table);
      RemoveAfter(kept, d, rest);
    }
  }

  /** Tables created one after the other, up to the first that is rejected. */
  function CreateTables(db: Database, ts: seq<TableDef>): (Database, Outcome)
    decreases ts
  {
    if ts == [] then (db, Done)
    else if CreateTable(db, ts[0]).None? then (db, DatabaseError)
    else CreateTables(CreateTable(db, ts[0]).value, ts[1..])
  }

  function DropTables(db: Database, ts: seq<TableDef>): (Database, Outcome)
    decreases ts
  {
    if ts == [] then (db, Done)
    else if DropTable(db, ts[0].name).None? then (db, DatabaseError)
    else DropTables(DropTable(db, ts[0].name).value, ts[1..])
  }

  function Applied(db: Database, r: Option<Database>): (Database, Outcome) {
    if r.Some? then (r.value, Done) else (db, DatabaseError)
  }

  /** A statement sent with markers for parameters, which it has no use for, depends on the driver. */
  function Sent(lenient: bool, db: Database, markers: seq<Marker>, r: Option<Database>): (Database, Outcome) {
    if markers != [] && !lenient then (db, DatabaseError) else Applied(db, r)
  }

  function AfterAddField(lenient: bool, db: Database, table: string, f: Field): (Database, Outcome) {
    if f.dbType.None? then (db, Done)
    else if !Addable(f) then (db, NotSupported)
    else Sent(lenient, db, MarkersOf(f), AddColumn(db, table, f))
  }

  function AfterNullability(db: Database, table: string, old_: Field, new_: Field): (Database, Outcome) {
    if !old_.nullable && new_.nullable then Applied(db, DropNotNull(db, table, new_.column)) else (db, Done)
  }

  function AfterDropIndexes(db: Database, table: string, column: string): (Database, Outcome) {
    if Fold(table) !in db || KeyListed(db[Fold(table)], column) then (db, DatabaseError)
    else (db[Fold(table) := WithoutIndexes(db[Fold(table)], column)], Done)
  }

  function AfterAlterField(db: Database, table: string, old_: Field, new_: Field): (Database, Outcome) {
    if !Alterable(old_, new_) then (db, NotSupported)
    else
      var (db', o) := AfterNullability(db, table, old_, new_);
      if o.Done? && old_.dbIndex && !new_.dbIndex then AfterDropIndexes(db', table, old_.column) else (db', o)
  }

  /** If all tables are created, the indexes of each are deferred, and no others. */
  lemma {:induction false} DeferredByMembers(db: Database, ts: seq<TableDef>)
    requires CreateTables(db, ts).1.Done?
    ensures forall d :: d in DeferredBy(db, ts) <==> exists t :: t in ts && d in IndexesOf(t)
    decreases ts
  {
    if ts != [] {
      DeferredByMembers(CreateTable(db, ts[0]).value, ts[1..]);
      assert forall t :: t in ts <==> t == ts[0] || t in ts[1..];
    }
  }

  /** The indexes that creating these tables defers, up to the first that is rejected. */
  function DeferredBy(db: Database, ts: seq<TableDef>): seq<Deferred>
    decreases ts
  {
    if ts == [] || CreateTable(db, ts[0]).None? then []
    else IndexesOf(ts[0]) + DeferredBy(CreateTable(db, ts[0]).value, ts[1..])
  }

  /** What is still deferred after these tables were dropped, up to the first that is missing. */
  function StillDeferred(db: Database, ts: seq<TableDef>, ds: seq<Deferred>): seq<Deferred>
    decreases ts
  {
    if ts == [] || DropTable(db, ts[0].name).None? then ds
    else StillDeferred(DropTable(db, ts[0].name).value, ts[1..], WithoutTable(ds, ts[0].name))
  }

  function AfterRename(db: Database, old_: string, new_: string): (Database, Outcome) {
    if Fold(old_) == Fold(new_) then (db, Done) else Applied(db, RenameTable(db, old_, new_))
  }

  // ---- The editor ----

  class DatabaseSchemaEditor {
    /** Whether the driver lets parameters pass that a statement has no use for. */
    const lenient: bool
    var database: Database
    var deferred: seq<Deferred>
    var warnings: nat

    constructor (database: Database, lenient: bool)
      ensures this.database == database && this.lenient == lenient && deferred == [] && warnings == 0
    {
      this.database, this.lenient, deferred, warnings := database, lenient, [], 0;
    }

    /** `execute`, of a statement with its parameters. */
    method Execute(r: Option<Database>, markers: seq<Marker>) returns (o: Outcome)
      modifies this`database
      ensures (database, o) == Sent(lenient, old(database), markers, r)
    {
      if (markers != [] && !lenient) || r.None? { return DatabaseError; }
      database := r.value;
      o := Done;
    }

    /** One table of `create_model` with its deferred indexes. */
    method CreateOne(t: TableDef) returns (o: Outcome)
      modifies this`database, this`deferred
      ensures (database, o) == Applied(old(database), CreateTable(old(database), t))
      ensures deferred == old(deferred) + if o.Done? then IndexesOf(t) else []
    {
      o := Execute(CreateTable(database, t), []);
      if o.Done? { deferred := deferred + IndexesOf(t); }
    }

    /** `create_model`: the model's table, then its through tables. */
    method CreateModel(m: Model) returns (o: Outcome)
      modifies this`database, this`deferred
      ensures (database, o) == CreateTables(old(database), [m.main] + m.throughs)
      ensures deferred == old(deferred) + DeferredBy(old(database), [m.main] + m.throughs)
    {
      var ts := [m.main] + m.throughs;
      assert ts[0..] == ts;
      for i := 0 to |ts|
        invariant CreateTables(old(database), ts) == CreateTables(database, ts[i..])
        invariant deferred + DeferredBy(database, ts[i..]) == old(deferred) + DeferredBy(old(database), ts)
      {
        assert ts[i..][0] == ts[i] && ts[i..][1..] == ts[i + 1..];
        Assoc(deferred, IndexesOf(ts[i]), if CreateTable(database, ts[i]).None? then [] else
                                            DeferredBy(CreateTable(database, ts[i]).value, ts[i + 1..]));
        Unit(deferred);
        o := CreateOne(ts[i]);
        if !o.Done? { return; }
      }
      Unit(deferred);
      o := Done;
    }

    /** The end of `delete_model`: the deferred statements on the table go, the others stay. */
    method ForgetDeferred(table: string)
      modifies this`deferred
      ensures deferred == WithoutTable(old(deferred), table)
    {
      var all := deferred;
      assert all[..0] + all[0..] == all;
      for i := 0 to |all|
        invariant deferred == WithoutTable(all[..i], table) + all[i..]
      {
        ForgetStep(all, i, table);
        if References(all[i], table) {
          deferred := RemoveFirst(deferred, all[i]);
        }
      }
      assert all[..|all|] == all && WithoutTable(all, table) + [] == WithoutTable(all, table);
    }

    /** `delete_model`: the through tables, then the model's table. */
    method DeleteModel(m: Model) returns (o: Outcome)
      modifies this`database, this`deferred
      ensures (database, o) == DropTables(old(database), m.throughs + [m.main])
      ensures deferred == StillDeferred(old(database), m.throughs + [m.main], old(deferred))
      ensures o.Done? ==> forall d, t :: d in deferred && t in m.throughs + [m.main] ==> !References(d, t.name)
    {
      var ts := m.throughs + [m.main];
      assert ts[0..] == ts;
      for i := 0 to |ts|
        invariant DropTables(old(database), ts) == DropTables(database, ts[i..])
        invariant StillDeferred(old(database), ts, old(deferred)) == StillDeferred(database, ts[i..], deferred)
        invariant forall d, j :: d in deferred && 0 <= j < i ==> !References(d, ts[j].name)
      {
        assert ts[i..][0] == ts[i] && ts[i..][1..] == ts[i + 1..];
        o := Execute(DropTable(database, ts[i].name), []);
        if !o.Done? { return; }
        var before := deferred;
        ForgetDeferred(ts[i].name);
        WithoutTableMembers(before, ts[i].name);
      }
      o := Done;
    }

    /** `add_field`. */
    method AddField(table: string, f: Field) returns (o: Outcome)
      modifies this`database, this`deferred
      ensures (database, o) == AfterAddField(lenient, old(database), table, f)
      ensures deferred == old(deferred) + if o.Done? && f.dbType.Some? then IndexedColumns(table, [f]) else []
    {
      if f.dbType.None? { return Done; }
      if !f.nullable {
        if f.default.NoDefault? { return NotSupported; }
        if DefaultLiteral(f.default).None? { return NotSupported; }
      }
      o := Execute(AddColumn(database, table, f), MarkersOf(f));
      if o.Done? { deferred := deferred + IndexedColumns(table, [f]); }
    }

    /** `remove_field`. */
    method RemoveField(table: string, column: string) returns (o: Outcome)
      modifies this`database
      ensures (database, o) == Applied(old(database), DropColumn(old(database), table, column))
    {
      o := Execute(DropColumn(database, table, column), []);
    }

    /**
     * The loop of `alter_field` over the indexes on a column; the primary key is
     * listed first, the others in any order.
     */
    method DropFieldIndexes(table: string, column: string) returns (o: Outcome)
      modifies this`database
      ensures (database, o) == AfterDropIndexes(old(database), table, column)
    {
      var n := Fold(table);
      if n !in database { return DatabaseError; }
      var names := IndexNames(database[n], column);
      ghost var was := database[n];
      assert database == database[n := database[n]];
      while names != {}
        invariant n in database && database == old(database)[n := database[n]]
        invariant names <= IndexNames(was, column) && (KeyListed(was, column) ==> names == IndexNames(was, column))
        invariant database[n] == was.(indexes := was.indexes - (IndexNames(was, column) - names))
        decreases names
      {
        var name :| name in names && (PRIMARY_KEY in names ==> name == PRIMARY_KEY);
        o := Execute(DropIndex(database, table, name), []);
        if !o.Done? { return; }
        names := names - {name};
      }
      assert IndexNames(was, column) - names == IndexNames(was, column);
      o := Done;
    }

    /** `alter_field`. */
    method AlterField(table: string, old_: Field, new_: Field) returns (o: Outcome)
      modifies this`database, this`warnings, this`deferred
      ensures (database, o) == AfterAlterField(old(database), table, old_, new_)
      ensures deferred == old(deferred)
                        + if o.Done? && new_.dbIndex && !old_.dbIndex then IndexedColumns(table, [new_]) else []
      ensures o.Done? ==>
                warnings == old(warnings) + (if old_.nullable && !new_.nullable then 1 else 0)
                                          + (if new_.unique && !old_.unique then 1 else 0)
    {
      if old_.column != new_.column { return NotSupported; }
      if TypeName(old_) != TypeName(new_) { return NotSupported; }
      if old_.primaryKey != new_.primaryKey { return NotSupported; }
      if old_.nullable != new_.nullable {
        if new_.nullable {
          o := Execute(DropNotNull(database, table, new_.column), []);
          if !o.Done? { return; }
        } else {
          warnings := warnings + 1;
        }
      }
      if new_.unique && !old_.unique { warnings := warnings + 1; }
      if old_.dbIndex && !new_.dbIndex {
        o := DropFieldIndexes(table, old_.column);
        return;
      }
      if new_.dbIndex && !old_.dbIndex { deferred := deferred + IndexedColumns(table, [new_]); }
      o := Done;
    }

    /** `alter_db_table`. */
    method AlterDbTable(oldTable: string, newTable: string) returns (o: Outcome)
      modifies this`database
      ensures (database, o) == AfterRename(old(database), oldTable, newTable)
    {
      if oldTable == newTable || Fold(oldTable) == Fold(newTable) { return Done; }
      o := Execute(RenameTable(database, oldTable, newTable), []);
    }
  }
}

/** What UPSERT makes of a table, row by row. */
module UpsertRows {
  import opened Lists
  import opened Options
  import opened Upsert

  /** A table by primary key; a column that is absent holds NULL. */
  type Table = map<int, map<string, Value>>

  datatype Write = Write(key: int, cols: map<string, Value>)

  function RowOf(t: Table, key: int): map<string, Value> {
    if key in t then t[key] else map[]
  }

  function UpsertRow(t: Table, w: Write): Table {
    t[w.key := RowOf(t, w.key) + w.cols]
  }

  /** `UPSERT INTO` for a batch. */
  function UpsertAll(t: Table, batch: seq<Write>): Table
    decreases batch
  {
    if batch == [] then t else UpsertAll(UpsertRow(t, batch[0]), batch[1..])
  }

  predicate Writes(batch: seq<Write>, key: int) {
    exists w :: w in batch && w.key == key
  }

  /** All that a batch writes under a key, later columns over earlier ones. */
  function Net(batch: seq<Write>, key: int): map<string, Value> {
    if batch == [] then map[]
    else (if batch[0].key == key then batch[0].cols else map[]) + Net(batch[1..], key)
  }

  lemma Members(batch: seq<Write>)
    requires batch != []
    ensures forall w :: w in batch <==> w == batch[0] || w in batch[1..]
  {
  }

  /** The row under a key afterwards: the old one with all that is written over it, and nothing else. */
  lemma {:induction false} WrittenKey(t: Table, batch: seq<Write>, key: int)
    ensures key in UpsertAll(t, batch) <==> key in t || Writes(batch, key)
    ensures RowOf(UpsertAll(t, batch), key) == RowOf(t, key) + Net(batch, key)
    decreases batch
  {
    if batch != [] {
      var w, rest := batch[0], batch[1..];
      var next := UpsertRow(t, w);
      NamesOne(batch, key);
      WrittenKey(next, rest, key);
      if w.key == key {
        OverTwice(RowOf(t, key), w.cols, Net(rest, key));
      } else {
        assert RowOf(next, key) == RowOf(t, key);
        OverTwice(RowOf(t, key), map[], Net(rest, key));
      }
    }
  }

  lemma NamesOne(batch: seq<Write>, key: int)
    requires batch != []
    ensures Writes(batch, key) <==> batch[0].key == key || Writes(batch[1..], key)
  {
    Members(batch);
    assert batch[0] in batch;
  }

  lemma OverTwice<K, V>(a: map<K, V>, b: map<K, V>, c: map<K, V>)
    ensures a + b + c == a + (b + c) && a + map[] == a && map[] + a == a
  {
  }

  /** Keys that a batch does not name are left alone. */
  lemma {:induction false} OtherKeys(t: Table, batch: seq<Write>, key: int)
    requires !Writes(batch, key)
    ensures key in UpsertAll(t, batch) <==> key in t
    ensures key in t ==> UpsertAll(t, batch)[key] == t[key]
  {
    WrittenKey(t, batch, key);
    NothingNet(batch, key);
  }

  lemma {:induction false} NothingNet(batch: seq<Write>, key: int)
    requires !Writes(batch, key)
    ensures Net(batch, key) == map[]
  {
    if batch != [] {
      Members(batch);
      assert batch[0] in batch;
      NothingNet(batch[1..], key);
    }
  }

  lemma SameTable(t: Table, u: Table)
    requires forall key :: key in t <==> key in u
    requires forall key :: RowOf(t, key) == RowOf(u, key)
    ensures t == u
  {
    forall key
      ensures key in t.Keys <==> key in u.Keys
    {
      assert key in t <==> key in u;
    }
    forall key | key in t
      ensures t[key] == u[key]
    {
      assert RowOf(t, key) == RowOf(u, key);
    }
  }

  /** Writing the same batch again changes nothing. */
  lemma UpsertIsIdempotent(t: Table, batch: seq<Write>)
    ensures UpsertAll(UpsertAll(t, batch), batch) == UpsertAll(t, batch)
  {
    var once := UpsertAll(t, batch);
    forall key
      ensures key in UpsertAll(once, batch) <==> key in once
      ensures RowOf(UpsertAll(once, batch), key) == RowOf(once, key)
    {
      WrittenKey(t, batch, key);
      WrittenKey(once, batch, key);
      assert RowOf(t, key) + Net(batch, key) + Net(batch, key) == RowOf(t, key) + Net(batch, key);
    }
    SameTable(UpsertAll(once, batch), once);
  }

  // ---- The order of a batch ----

  ghost predicate SameNet(batch: seq<Write>, other: seq<Write>) {
    forall key :: (Writes(batch, key) <==> Writes(other, key)) && Net(batch, key) == Net(other, key)
  }

  /** On every table the two batches have the same effect. */
  ghost predicate Interchangeable(batch: seq<Write>, other: seq<Write>) {
    forall t :: UpsertAll(t, batch) == UpsertAll(t, other)
  }

  lemma SameNetIsInterchangeable(t: Table, batch: seq<Write>, other: seq<Write>)
    requires SameNet(batch, other)
    ensures UpsertAll(t, batch) == UpsertAll(t, other)
  {
    forall key
      ensures key in UpsertAll(t, batch) <==> key in UpsertAll(t, other)
      ensures RowOf(UpsertAll(t, batch), key) == RowOf(UpsertAll(t, other), key)
    {
      WrittenKey(t, batch, key);
      WrittenKey(t, other, key);
    }
    SameTable(UpsertAll(t, batch), UpsertAll(t, other));
  }

  /** Batches have the same effect exactly when they write the same under every key. */
  lemma InterchangeableIff(batch: seq<Write>, other: seq<Write>)
    ensures Interchangeable(batch, other) <==> SameNet(batch, other)
  {
    if SameNet(batch, other) {
      forall t
        ensures UpsertAll(t, batch) == UpsertAll(t, other)
      {
        SameNetIsInterchangeable(t, batch, other);
      }
    }
    if Interchangeable(batch, other) {
      assert UpsertAll(map[], batch) == UpsertAll(map[], other);
      forall key
        ensures (Writes(batch, key) <==> Writes(other, key)) && Net(batch, key) == Net(other, key)
      {
        IntoNothing(batch, key);
        IntoNothing(other, key);
      }
    }
  }

  /** An empty table shows what a batch writes. */
  lemma IntoNothing(batch: seq<Write>, key: int)
    ensures key in UpsertAll(map[], batch) <==> Writes(batch, key)
    ensures RowOf(UpsertAll(map[], batch), key) == Net(batch, key)
  {
    WrittenKey(map[], batch, key);
    OverTwice(Net(batch, key), map[], map[]);
  }

  /** Two rows with the same key do not differ in a column that both list. */
  predicate Agree(w: Write, v: Write) {
    w.key == v.key ==> forall c :: c in w.cols && c in v.cols ==> w.cols[c] == v.cols[c]
  }

  predicate Compatible(batch: seq<Write>) {
    forall w, v :: w in batch && v in batch ==> Agree(w, v)
  }

  predicate DistinctKeys(batch: seq<Write>) {
    forall i, j :: 0 <= i < j < |batch| ==> batch[i].key != batch[j].key
  }

  lemma DistinctIsCompatible(batch: seq<Write>)
    requires DistinctKeys(batch)
    ensures Compatible(batch)
  {
  }

  /** In a compatible batch each column written under a key has one value. */
  lemma {:induction false} NetColumn(batch: seq<Write>, key: int, c: string)
    ensures c in Net(batch, key) <==> exists w :: w in batch && w.key == key && c in w.cols
    ensures Compatible(batch) ==>
              forall w :: w in batch && w.key == key && c in w.cols ==> w.cols[c] == Net(batch, key)[c]
  {
    if batch != [] {
      Members(batch);
      NetColumn(batch[1..], key, c);
      assert batch[0] in batch;
      if Compatible(batch) {
        assert Compatible(batch[1..]);
        forall w | w in batch && w.key == key && c in w.cols
          ensures w.cols[c] == Net(batch, key)[c]
        {
          if c in Net(batch[1..], key) {
            var v :| v in batch[1..] && v.key == key && c in v.cols;
            assert Agree(w, v);
          }
        }
      }
    }
  }

  /** The rows of a compatible batch may come in any order, and any number of times. */
  lemma UpsertIgnoresOrder(t: Table, batch: seq<Write>, other: seq<Write>)
    requires Compatible(batch) && forall w :: w in batch <==> w in other
    ensures UpsertAll(t, batch) == UpsertAll(t, other)
  {
    forall key
      ensures Net(batch, key) == Net(other, key)
    {
      forall c
        ensures c in Net(batch, key) <==> c in Net(other, key)
        ensures c in Net(batch, key) ==> Net(batch, key)[c] == Net(other, key)[c]
      {
        NetColumn(batch, key, c);
        NetColumn(other, key, c);
      }
    }
    SameNetIsInterchangeable(t, batch, other);
  }

  function Without(batch: seq<Write>, w: Write): seq<Write> {
    if batch == [] then [] else if batch[0] == w then batch[1..] else [batch[0]] + Without(batch[1..], w)
  }

  lemma {:induction false} WithoutOne(batch: seq<Write>, w: Write)
    requires w in batch
    ensures multiset(Without(batch, w) + [w]) == multiset(batch)
  {
    assert batch == [batch[0]] + batch[1..];
    if batch[0] != w {
      WithoutOne(batch[1..], w);
      assert Without(batch, w) + [w] == [batch[0]] + (Without(batch[1..], w) + [w]);
    }
  }

  lemma {:induction false} NetOfLast(batch: seq<Write>, w: Write)
    ensures Net(batch + [w], w.key) == Net(batch, w.key) + w.cols
  {
    if batch == [] {
      Unit([w]);
      Single(w);
      OverTwice(w.cols, map[], map[]);
    } else {
      Cons(batch, [w]);
      NetOfLast(batch[1..], w);
      OverTwice(if batch[0].key == w.key then batch[0].cols else map[], Net(batch[1..], w.key), w.cols);
    }
  }

  /** Of two rows that disagree, whichever comes last decides. */
  lemma DisagreementShows(batch: seq<Write>, w: Write, v: Write)
    requires w in batch && v in batch && !Agree(w, v)
    ensures !Interchangeable(Without(batch, w) + [w], Without(batch, v) + [v])
  {
    var c :| c in w.cols && c in v.cols && w.cols[c] != v.cols[c];
    NetOfLast(Without(batch, w), w);
    NetOfLast(Without(batch, v), v);
    InterchangeableIff(Without(batch, w) + [w], Without(batch, v) + [v]);
    assert Net(Without(batch, w) + [w], w.key)[c] != Net(Without(batch, v) + [v], w.key)[c];
  }

  /** The order of a batch does not matter exactly when rows with the same key agree. */
  lemma OrderIsIrrelevantIff(batch: seq<Write>)
    ensures Compatible(batch) <==>
              forall other :: multiset(other) == multiset(batch) ==> Interchangeable(batch, other)
  {
    if Compatible(batch) {
      forall other | multiset(other) == multiset(batch)
        ensures Interchangeable(batch, other)
      {
        forall t
          ensures UpsertAll(t, batch) == UpsertAll(t, other)
        {
          SameMembers(batch, other);
          UpsertIgnoresOrder(t, batch, other);
        }
      }
    } else {
      var w, v :| w in batch && v in batch && !Agree(w, v);
      WithoutOne(batch, w);
      WithoutOne(batch, v);
      DisagreementShows(batch, w, v);
      var first, last := Without(batch, w) + [w], Without(batch, v) + [v];
      BothInterchangeable(batch, first, last);
    }
  }

  lemma BothInterchangeable(batch: seq<Write>, a: seq<Write>, b: seq<Write>)
    ensures Interchangeable(batch, a) && Interchangeable(batch, b) ==> Interchangeable(a, b)
  {
    if Interchangeable(batch, a) && Interchangeable(batch, b) {
      forall t
        ensures UpsertAll(t, a) == UpsertAll(t, b)
      {
        assert UpsertAll(t, batch) == UpsertAll(t, a);
      }
    }
  }

  lemma SameMembers(batch: seq<Write>, other: seq<Write>)
    requires multiset(batch) == multiset(other)
    ensures forall w :: w in batch <==> w in other
  {
    forall w
      ensures w in batch <==> w in other
    {
      assert w in batch <==> w in multiset(batch);
      assert w in other <==> w in multiset(other);
    }
  }

  // ---- NOT NULL columns ----

  /** The row has a value in this column. */
  predicate Filled(row: map<string, Value>, column: string) {
    column in row && row[column] != NULL
  }

  predicate FilledAt(t: Table, key: int, f: Field) {
    key in t && !f.nullable ==> Filled(t[key], f.column)
  }

  /** Every row has a value in every NOT NULL column. */
  ghost predicate Complete(concrete: seq<Field>, t: Table) {
    forall key, f :: f in concrete ==> FilledAt(t, key, f)
  }

  /** What the row has in the column of the field, it has afterwards. */
  predicate KeptAt(t: Table, t': Table, key: int, f: Field) {
    key in t && f.column in t[key] ==>
      key in t' && f.column in t'[key] && t'[key][f.column] == t[key][f.column]
  }

  /** A write lists exactly the columns of these fields, with no NULL for a NOT NULL one. */
  ghost predicate Covers(cols: map<string, Value>, fields: seq<Field>) {
    && (forall f :: f in fields ==> f.column in cols && (!f.nullable ==> cols[f.column] != NULL))
    && (forall c :: c in cols ==> exists f :: f in fields && f.column == c)
  }

  /** Columns name the fields of a model. */
  ghost predicate DistinctColumns(fs: set<Field>) {
    forall f, g :: f in fs && g in fs && f.column == g.column ==> f == g
  }

  function FieldsOf(m: Model): set<Field> {
    {m.pk} + set f | f in m.concrete
  }

  ghost predicate UpsertOf(m: Model, wanted: set<string>, fs: seq<Field>, batch: seq<Write>) {
    && NoDuplicates(m.concrete) && DistinctColumns(FieldsOf(m))
    && UpsertFields(m, Some(wanted)) == Ok(fs)
    && forall w :: w in batch ==> Covers(w.cols, fs)
  }

  lemma CoversBoth(a: map<string, Value>, b: map<string, Value>, fs: seq<Field>)
    requires Covers(b, fs) && (a == map[] || Covers(a, fs))
    ensures Covers(a + b, fs)
  {
  }

  lemma {:induction false} NetCovers(batch: seq<Write>, key: int, fs: seq<Field>)
    requires Writes(batch, key) && forall w :: w in batch ==> Covers(w.cols, fs)
    ensures Covers(Net(batch, key), fs)
  {
    Members(batch);
    var first := if batch[0].key == key then batch[0].cols else map[];
    assert batch[0] in batch;
    if Writes(batch[1..], key) {
      NetCovers(batch[1..], key, fs);
      CoversBoth(first, Net(batch[1..], key), fs);
    } else {
      NothingNet(batch[1..], key);
      assert first + map[] == first;
    }
  }

  /** A covered row is complete in its NOT NULL fields, and unchanged in the fields not listed. */
  lemma MergedRow(row: map<string, Value>, cols: map<string, Value>, fs: seq<Field>, f: Field)
    requires Covers(cols, fs)
    requires forall g :: g in fs && g.column == f.column ==> g == f
    ensures f in fs && !f.nullable ==> Filled(row + cols, f.column)
    ensures f !in fs && f.column in row ==> f.column in row + cols && (row + cols)[f.column] == row[f.column]
  {
  }

  /** The column of a field, of the key or not, that the UPSERT does not list. */
  predicate Unlisted(m: Model, wanted: set<string>, f: Field) {
    f in m.concrete && f != m.pk && !Wanted(f, wanted)
  }

  lemma KeyStaysComplete(m: Model, wanted: set<string>, fs: seq<Field>, t: Table, batch: seq<Write>, key: int, f: Field)
    requires UpsertOf(m, wanted, fs, batch) && f in m.concrete
    requires FilledAt(t, key, f)
    ensures FilledAt(UpsertAll(t, batch), key, f)
    ensures Unlisted(m, wanted, f) ==> KeptAt(t, UpsertAll(t, batch), key, f)
  {
    UpsertFieldsAreComplete(m, wanted);
    if Writes(batch, key) {
      WrittenKey(t, batch, key);
      NetCovers(batch, key, fs);
      forall g | g in fs && g.column == f.column
        ensures g == f
      {
        assert f in FieldsOf(m) && g in FieldsOf(m);
      }
      MergedRow(RowOf(t, key), Net(batch, key), fs, f);
    } else {
      OtherKeys(t, batch, key);
    }
  }

  /**
   * An UPSERT restricted to some fields keeps the table complete, new rows
   * included, and preserves the columns it does not list.
   */
  lemma UpsertKeepsTableComplete(m: Model, wanted: set<string>, fs: seq<Field>, t: Table, batch: seq<Write>)
    requires UpsertOf(m, wanted, fs, batch) && Complete(m.concrete, t)
    ensures Complete(m.concrete, UpsertAll(t, batch))
    ensures forall key, f :: Unlisted(m, wanted, f) ==> KeptAt(t, UpsertAll(t, batch), key, f)
  {
    forall key: int, f | f in m.concrete
      ensures FilledAt(UpsertAll(t, batch), key, f)
      ensures Unlisted(m, wanted, f) ==> KeptAt(t, UpsertAll(t, batch), key, f)
    {
      KeyStaysComplete(m, wanted, fs, t, batch, key, f);
    }
  }
}

/**
 * The rows of a statement whose ORDER BY terms were rewritten to aliases and
 * then dropped where constant, against the terms as they were written.
 */
module OrderRows {
  import opened ConstantTerms
  import opened Fragments
  import opened Lists
  import opened OrderAliases
  import opened Placeholders
  import opened PyText
  import opened QueryTree
  import opened Sorting

  /** How the database evaluates text with its parameters in a row, and how it compares the values. */
  datatype Database<!V, !K> = Database(ev: (Frag, Row<V>) -> K, less: (K, K) -> bool)

  predicate Descending(f: Frag) {
    TermDirection(f.sql) != "" && "DESC" <= TermDirection(f.sql)[1..]
  }

  predicate Before<V, K(==)>(db: Database<V, K>, selected: seq<Selected>, terms: seq<Frag>, r: Row<V>, q: Row<V>) {
    if terms == [] then false
    else
      var a, b := SortKey(db.ev, selected, terms[0], r), SortKey(db.ev, selected, terms[0], q);
      if a == b then Before(db, selected, terms[1..], r, q)
      else if Descending(terms[0]) then db.less(b, a)
      else db.less(a, b)
  }

  /** The rows as these ORDER BY terms sort them. */
  function RowsBy<V, K(==)>(db: Database<V, K>, selected: seq<Selected>, terms: seq<Frag>, rows: seq<Row<V>>)
    : seq<Row<V>>
  {
    Sorted((r, q) => Before(db, selected, terms, r, q), rows)
  }

  /** The terms that reach the statement. */
  function KeptTerms(fs: seq<Frag>): seq<Frag> {
    if fs == [] then []
    else (if IsConstantSql(TermBase(fs[0].sql)) then [] else [fs[0]]) + KeptTerms(fs[1..])
  }

  function Written(terms: seq<Ordered>): seq<Frag> {
    if terms == [] then [] else [terms[0].frag] + Written(terms[1..])
  }

  lemma {:induction false} KeptTermsAreEmitted(fs: seq<Frag>)
    ensures KeptOrders(fs) == UntypedAll(KeptTerms(fs))
  {
    if fs != [] {
      KeptTermsAreEmitted(fs[1..]);
      if IsConstantSql(TermBase(fs[0].sql)) {
        assert KeptTerms(fs) == KeptTerms(fs[1..]);
      } else {
        assert KeptTerms(fs)[1..] == KeptTerms(fs[1..]);
      }
    }
  }

  // ---- Terms the database reads as they are rendered ----

  /** The base of the term is rendered from tokens that name nothing, and its value depends on what they name alone. */
  ghost predicate Rendered<V(!new), K>(db: Database<V, K>, f: Frag) {
    exists ts :: RenderedFrom(db, f, ts)
  }

  ghost predicate RenderedFrom<V(!new), K>(db: Database<V, K>, f: Frag, ts: seq<Token>) {
    && Render(ts) == TermBase(f.sql) && !Refers(ts)
    && DependsOn(db, Frag(TermBase(f.sql), f.params), NamesOf(ts))
  }

  ghost predicate DependsOn<V(!new), K>(db: Database<V, K>, f: Frag, names: set<string>) {
    forall r: Row<V>, q: Row<V> :: Visible(names, r) == Visible(names, q) ==> db.ev(f, r) == db.ev(f, q)
  }

  lemma ConstantKey<V(!new), K>(db: Database<V, K>, f: Frag, r: Row<V>, q: Row<V>)
    requires Rendered(db, f)
    ensures db.ev(Frag(TermBase(f.sql), f.params), r) == db.ev(Frag(TermBase(f.sql), f.params), q)
  {
    var ts :| RenderedFrom(db, f, ts);
    NamelessHasNoNames(ts);
    assert Visible({}, r) == Visible({}, q);
  }

  /** An alias is quoted, so a term that was rewritten to one is never taken for constant. */
  lemma AliasIsKept(alias: string)
    requires alias != ""
    ensures !IsConstantSql(QuoteName(alias))
  {
    var name := QuoteName(alias);
    assert name[0] == '`' && name == "`" + name[1..] && "`"[0] in "`";
    KeptByHead("`", name[1..]);
  }

  /** What starts with a letter or a quoted name is never taken for constant. */
  lemma KeptByHead(head: string, tail: string)
    requires '\'' !in head && '%' !in head && ReadsRows(head)
    ensures !IsConstantSql(head + tail)
  {
    StripPlain(head, tail);
    ReplacePlain(head, StripLiterals(tail));
    var left := ReplaceAll(StripLiterals(head + tail), HOLE, "");
    assert forall c :: c in head ==> c in left;
  }

  /** So what is taken for constant is no alias, and stands for itself. */
  lemma ConstantIsNoAlias(selected: seq<Selected>, f: Frag)
    requires IsConstantSql(TermBase(f.sql))
    ensures Stands(selected, f) == Frag(TermBase(f.sql), f.params)
  {
    var j := ColumnNamed(selected, TermBase(f.sql));
    if j >= 0 {
      AliasIsKept(selected[j].alias);
    }
  }

  const RANDOM := "Random("

  lemma RandomReads()
    ensures '\'' !in RANDOM && '%' !in RANDOM && ReadsRows(RANDOM)
    ensures forall c :: c in RANDOM ==> !IsSpace(c)
  {
    assert RANDOM[0] == 'R' && RANDOM[0] in RANDOM;
  }

  /** A random order is anchored so that it is not dropped either: it reaches the statement as it is. */
  lemma RandomIsKept(selected: seq<Selected>, distinct: bool, anchor: Frag, aggregate: bool)
    ensures var f := RewriteOne(selected, distinct, Ordered(Anchored(anchor), aggregate, true));
            f == Anchored(anchor) && !IsConstantSql(TermBase(f.sql)) && KeptTerms([f]) == [f]
  {
    var f := Anchored(anchor);
    RandomReads();
    Assoc(RANDOM, anchor.sql, ", CurrentUtcTimestamp())");
    BaseIsKept(RANDOM, anchor.sql + ", CurrentUtcTimestamp())");
    HeadOfKept(f, []);
    assert [f] + [] == [f];
  }

  lemma BaseIsKept(head: string, rest: string)
    requires '\'' !in head && '%' !in head && ReadsRows(head) && forall c :: c in head ==> !IsSpace(c)
    ensures !IsConstantSql(TermBase(head + rest))
  {
    BaseStarts(head, rest);
    var base := TermBase(head + rest);
    assert base == head + base[|head|..];
    KeptByHead(head, base[|head|..]);
  }

  /** A base starts as the term does, up to the first blank. */
  lemma BaseStarts(head: string, rest: string)
    requires forall c :: c in head ==> !IsSpace(c)
    ensures head <= TermBase(head + rest)
  {
    DirectionAfter(head, rest);
  }

  lemma {:induction false} DirectionAfter(head: string, rest: string)
    requires forall c :: c in head ==> !IsSpace(c)
    ensures LastDirection(head + rest) < 0 || LastDirection(head + rest) >= |head|
  {
    if head == "" {
      assert head + rest == rest;
    } else {
      assert head[0] in head && (head + rest)[1..] == head[1..] + rest;
      DirectionAfter(head[1..], rest);
    }
  }

  // ---- How a term is shown ----

  /**
   * The i-th term is shown as Django has it, as the source of its ordinal
   * reference, or as a random order over its anchor.
   */
  lemma {:induction false} TermsAreShown(terms: seq<OrderTerm>, i: nat)
    requires CompileOrder(terms).Ok? && i < |terms|
    ensures |CompileOrder(terms).value| == |terms|
    ensures var t, shown := terms[i], CompileOrder(terms).value[i];
            && shown.aggregate == t.aggregate && (shown.random <==> t.again.Random?)
            && match t.again
               case AsIs => CompileNode(t.node).outcome == Ok(shown.frag)
               case Ordinal(source) => CompileNode(source).outcome == Ok(shown.frag)
               case Random(anchor) =>
                 CompileNode(anchor).outcome.Ok?
                 && shown.frag.sql == "Random(" + CompileNode(anchor).outcome.value.sql + ", CurrentUtcTimestamp())"
                 && shown.frag.params == CompileNode(anchor).outcome.value.params
    decreases |terms|
  {
    CompiledOrder(terms);
    TermsLength(terms);
    if i > 0 {
      TermsAreShown(terms[1..], i - 1);
    }
  }

  lemma {:induction false} TermsLength(terms: seq<OrderTerm>)
    requires CompileOrder(terms).Ok?
    ensures |CompileOrder(terms).value| == |terms|
  {
    if terms != [] {
      CompiledOrder(terms);
      TermsLength(terms[1..]);
    }
  }

  /**
   * It goes by the alias of a column with its text and parameters under DISTINCT
   * or if it is an aggregate, never if it is random; any other stays as it is.
   */
  lemma {:induction false} TermsAreRewritten(selected: seq<Selected>, distinct: bool, terms: seq<Ordered>, i: nat)
    requires i < |terms|
    ensures |RewriteOrder(selected, distinct, terms)| == |terms|
    ensures var t := terms[i];
            var j := AliasFor(selected, TermBase(t.frag.sql), t.frag.params);
            RewriteOrder(selected, distinct, terms)[i] ==
              if (distinct || t.aggregate) && !t.random && j >= 0 then
                Frag(QuoteName(selected[j].alias) + TermDirection(t.frag.sql), [])
              else t.frag
  {
    RewrittenLength(selected, distinct, terms);
    if i > 0 {
      TermsAreRewritten(selected, distinct, terms[1..], i - 1);
    }
  }

  lemma {:induction false} RewrittenLength(selected: seq<Selected>, distinct: bool, terms: seq<Ordered>)
    ensures |RewriteOrder(selected, distinct, terms)| == |terms|
  {
    if terms != [] {
      RewrittenLength(selected, distinct, terms[1..]);
    }
  }

  // ---- The order is kept ----

  ghost predicate ProperTerm<V(!new), K>(db: Database<V, K>, selected: seq<Selected>, needed: bool, f: Frag) {
    (IsConstantSql(TermBase(f.sql)) ==> Rendered(db, f)) && (needed ==> NotConfused(selected, f))
  }

  ghost predicate ProperTerms<V(!new), K>(db: Database<V, K>, selected: seq<Selected>, distinct: bool,
                                          terms: seq<Ordered>) {
    forall t :: t in terms ==> ProperTerm(db, selected, NeedsAlias(distinct, t), t.frag)
  }

  predicate ProperAliases(selected: seq<Selected>) {
    DistinctAliases(selected) && forall s :: s in selected ==> LastDirection(QuoteName(s.alias)) < 0
  }

  /** A rewritten term sorts as it did, and is dropped only where all rows agree on it. */
  lemma RewrittenTerm<V(!new), K>(db: Database<V, K>, selected: seq<Selected>, needed: bool, f: Frag,
                                  r: Row<V>, q: Row<V>)
    requires ProperAliases(selected) && ProperTerm(db, selected, needed, f)
    ensures var new_ := RewriteTerm(selected, needed, f);
            && SortKey(db.ev, selected, new_, r) == SortKey(db.ev, selected, f, r)
            && Descending(new_) == Descending(f)
            && (IsConstantSql(TermBase(new_.sql)) ==> SortKey(db.ev, selected, f, r) == SortKey(db.ev, selected, f, q))
  {
    RewriteKeepsKey(db.ev, selected, needed, f, r);
    RewriteKeepsKey(db.ev, selected, needed, f, q);
    var i := AliasFor(selected, TermBase(f.sql), f.params);
    if needed && i >= 0 {
      DirectionStarts(f.sql);
      NoDirectionInside(QuoteName(selected[i].alias), TermDirection(f.sql));
      AliasIsKept(selected[i].alias);
    } else if IsConstantSql(TermBase(f.sql)) {
      ConstantIsNoAlias(selected, f);
      ConstantKey(db, f, r, q);
    }
  }

  lemma {:induction false} BeforeKept<V(!new), K>(db: Database<V, K>, selected: seq<Selected>, distinct: bool,
                                            terms: seq<Ordered>, r: Row<V>, q: Row<V>)
    requires ProperAliases(selected) && ProperTerms(db, selected, distinct, terms)
    ensures Before(db, selected, KeptTerms(RewriteOrder(selected, distinct, terms)), r, q)
         == Before(db, selected, Written(terms), r, q)
  {
    if terms != [] {
      var t, rest := terms[0], RewriteOrder(selected, distinct, terms[1..]);
      assert t in terms && forall u :: u in terms[1..] ==> u in terms;
      BeforeKept(db, selected, distinct, terms[1..], r, q);
      RewrittenTerm(db, selected, NeedsAlias(distinct, t), t.frag, r, q);
      RewrittenTerm(db, selected, NeedsAlias(distinct, t), t.frag, q, r);
      var new_ := RewriteOne(selected, distinct, t);
      HeadOfKept(new_, rest);
      assert Written(terms)[1..] == Written(terms[1..]);
    }
  }

  lemma HeadOfKept(f: Frag, fs: seq<Frag>)
    ensures KeptTerms([f] + fs) == (if IsConstantSql(TermBase(f.sql)) then [] else [f]) + KeptTerms(fs)
    ensures IsConstantSql(TermBase(f.sql)) ==> KeptTerms([f] + fs) == KeptTerms(fs)
    ensures !IsConstantSql(TermBase(f.sql)) ==> KeptTerms([f] + fs)[0] == f && KeptTerms([f] + fs)[1..] == KeptTerms(fs)
  {
    assert ([f] + fs)[1..] == fs;
  }

  /**
   * Sorted by the terms that are emitted, every table is in the order that the
   * terms as written give it, on every database.
   */
  lemma OrderIsKept<V(!new), K>(db: Database<V, K>, selected: seq<Selected>, distinct: bool, terms: seq<Ordered>,
                          rows: seq<Row<V>>)
    requires ProperAliases(selected) && ProperTerms(db, selected, distinct, terms)
    ensures var emitted := KeptTerms(RewriteOrder(selected, distinct, terms));
            && KeptOrders(RewriteOrder(selected, distinct, terms)) == UntypedAll(emitted)
            && RowsBy(db, selected, emitted, rows) == RowsBy(db, selected, Written(terms), rows)
  {
    var emitted := KeptTerms(RewriteOrder(selected, distinct, terms));
    KeptTermsAreEmitted(RewriteOrder(selected, distinct, terms));
    forall r: Row<V>, q: Row<V>
      ensures Before(db, selected, emitted, r, q) == Before(db, selected, Written(terms), r, q)
    {
      BeforeKept(db, selected, distinct, terms, r, q);
    }
    SortedSame((r, q) => Before(db, selected, emitted, r, q),
               (r, q) => Before(db, selected, Written(terms), r, q), rows);
  }
}

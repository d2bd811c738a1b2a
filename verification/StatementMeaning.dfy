/** Compiling preserves the meaning of a tree, at any nesting depth. */
module StatementMeaning {
  import opened Options
  import opened Placeholders
  import opened ConstantTerms
  import opened Parameters
  import opened Fragments
  import opened OrderAliases
  import opened QueryTree
  import opened CaptureAlignment
  import opened ClauseMeaning
  import opened TreeMeaning

  // ---- Expressions ----

  function ClauseTypes(n: Node, typed: bool): (types: seq<FieldType>)
    requires CompileNode(n).outcome.Ok?
    ensures |types| == |CompileNode(n).outcome.value.params|
  {
    OwnersLength(n);
    if typed then Owners(n) else Repeat(Unresolved, |CompileNode(n).outcome.value.params|)
  }

  /** The fragment of a node with the types its parameters ought to have. */
  function NodeClause(n: Node, typed: bool): Clause
    requires CompileNode(n).outcome.Ok?
  {
    var f := CompileNode(n).outcome.value;
    Clause(f.sql, f.params, ClauseTypes(n, typed))
  }

  function ItemClause(item: Item, n: Node, typed: bool): Clause
    requires n.Expr? && CompileNode(n).outcome.Ok?
  {
    FilledRun(n);
    ItemLength(item, n);
    var f := ExpandItem(item, RunChildren(n.children).results);
    Clause(f.sql, f.params, if typed then ItemOwners(item, n) else Repeat(Unresolved, |f.params|))
  }

  function ItemsClause(items: seq<Item>, n: Node, typed: bool): Clause
    requires n.Expr? && CompileNode(n).outcome.Ok?
  {
    ItemsLength(items, n);
    var f := Expand(items, RunChildren(n.children).results);
    Clause(f.sql, f.params, if typed then AllOwners(items, n) else Repeat(Unresolved, |f.params|))
  }

  lemma {:induction false} NodeMeaning(n: Node, typed: bool)
    requires GoodNode(n) && CompileNode(n).outcome.Ok?
    ensures Sound(NodeClause(n, typed)) && Meaning(NodeClause(n, typed)) == NodePieces(n, typed)
    decreases n, 1
  {
    match n
    case Expr(_, _, body) =>
      FilledRun(n);
      ItemsMeaning(body.items, n, typed);
      assert NodeClause(n, typed) == ItemsClause(body.items, n, typed);
    case RawSql(ty, text, rawParams) =>
      var types := Repeat(if typed then ty else Unresolved, |rawParams|);
      SurroundMeaning("(", Clause(text, rawParams, types), ")");
      SurroundedClause("(", text, ")", rawParams, types);
    case Subquery(ty, query) =>
      QueryMeaning(query, true);
      var st := CompileQuery(query, true).value;
      var types := ClauseTypes(n, typed);
      TypedParamsPassThrough(types, st.bounds);
      SurroundMeaning("(", Clause(st.sql, TypedParams(st.bounds), types), ")");
      SurroundedClause("(", st.sql, ")", TypedParams(st.bounds), types);
  }

  lemma {:induction false} ItemsMeaning(items: seq<Item>, n: Node, typed: bool)
    requires n.Expr? && GoodNode(n) && CompileNode(n).outcome.Ok?
    requires forall i :: 0 <= i < |items| && items[i].Text? ==> CleanText(items[i].s)
    ensures Sound(ItemsClause(items, n, typed))
    ensures Meaning(ItemsClause(items, n, typed)) == ItemsPieces(items, n, typed)
    decreases n, 0, |items|
  {
    if items == [] {
      GlueMeaning("");
      assert ItemsClause(items, n, typed) == Glue("");
    } else {
      var a, b := ItemClause(items[0], n, typed), ItemsClause(items[1..], n, typed);
      ItemMeaning(items[0], n, typed);
      ItemsMeaning(items[1..], n, typed);
      CatMeaning(a, b);
      assert ItemsClause(items, n, typed) == Cat(a, b);
    }
  }

  lemma {:induction false} ItemMeaning(item: Item, n: Node, typed: bool)
    requires n.Expr? && GoodNode(n) && CompileNode(n).outcome.Ok?
    requires item.Text? ==> CleanText(item.s)
    ensures Sound(ItemClause(item, n, typed))
    ensures Meaning(ItemClause(item, n, typed)) == ItemPieces(item, n, typed)
    decreases n, 0, 0
  {
    FilledRun(n);
    match item
    case Text(s) =>
      GlueMeaning(s);
      assert ItemClause(item, n, typed) == Glue(s);
    case Own(v) =>
      OwnMeaning(v, if typed then n.ty else Unresolved);
      assert ItemClause(item, n, typed) == Clause("%s", [Plain(v)], [if typed then n.ty else Unresolved]);
    case Ref(i) =>
      if i < |n.children| && CompileNode(ChildAt(n, i)).outcome.Ok? {
        NodeMeaning(ChildAt(n, i), typed);
        assert ItemClause(item, n, typed) == NodeClause(ChildAt(n, i), typed);
      } else {
        GlueMeaning("");
        assert ItemOwners(item, n) == [];
        assert ItemClause(item, n, typed) == Glue("");
      }
  }

  lemma UntypedMeaning(n: Node)
    requires GoodNode(n) && CompileNode(n).outcome.Ok?
    ensures var c := Untyped(CompileNode(n).outcome.value);
            Sound(c) && Meaning(c) == NodePieces(n, false)
    decreases n, 2
  {
    NodeMeaning(n, false);
    assert Untyped(CompileNode(n).outcome.value) == NodeClause(n, false);
  }

  // ---- Clauses ----

  lemma {:induction false} NodesMeaning(ns: seq<Node>)
    requires GoodNodes(ns) && CompileAll(ns).Ok?
    ensures AllSound(UntypedAll(CompileAll(ns).value))
    ensures Meanings(UntypedAll(CompileAll(ns).value)) == NodesPieces(ns)
    decreases ns, 3
  {
    if ns != [] {
      UntypedMeaning(ns[0]);
      NodesMeaning(ns[1..]);
      ConsMeanings(Untyped(CompileNode(ns[0]).outcome.value), UntypedAll(CompileAll(ns[1..]).value));
    }
  }

  lemma ColumnMeaning(col: Column)
    requires GoodNode(col.node) && CleanText(col.alias) && CompileNode(col.node).outcome.Ok?
    ensures var c := ColumnClause(Selected(CompileNode(col.node).outcome.value, col.alias));
            Sound(c) && Meaning(c) == NodePieces(col.node, false)
                                    + (if col.alias == "" then [] else Chars(" AS " + QuoteName(col.alias)))
    decreases col, 3
  {
    UntypedMeaning(col.node);
    if col.alias != "" {
      QuotedIsClean(col.alias, " AS ");
      GlueMeaning(" AS " + QuoteName(col.alias));
      CatMeaning(Untyped(CompileNode(col.node).outcome.value), Glue(" AS " + QuoteName(col.alias)));
    }
  }

  lemma {:induction false} ColumnsMeaning(cols: seq<Column>)
    requires GoodColumns(cols) && CompileColumns(cols).Ok?
    ensures AllSound(ColumnClauses(CompileColumns(cols).value))
    ensures Meanings(ColumnClauses(CompileColumns(cols).value)) == ColumnsPieces(cols)
    decreases cols, 3
  {
    if cols != [] {
      ColumnMeaning(cols[0]);
      ColumnsMeaning(cols[1..]);
      ConsMeanings(ColumnClause(Selected(CompileNode(cols[0].node).outcome.value, cols[0].alias)),
                   ColumnClauses(CompileColumns(cols[1..]).value));
    }
  }

  lemma RelabeledColumnMeaning(col: Column)
    requires GoodNode(col.relabeled) && CleanText(col.alias) && CompileRelabeledColumn(col).Ok?
    ensures Sound(CompileRelabeledColumn(col).value)
    ensures Meaning(CompileRelabeledColumn(col).value) == RelabeledColumnPieces(col)
    decreases col, 3
  {
    if col.alias != "" {
      PlainIsClean("`subquery`.");
      QuotedIsClean(col.alias, "`subquery`.");
      GlueMeaning("`subquery`." + QuoteName(col.alias));
    } else {
      UntypedMeaning(col.relabeled);
    }
  }

  lemma {:induction false} RelabeledMeaning(cols: seq<Column>)
    requires GoodColumns(cols) && CompileRelabeled(cols).Ok?
    ensures AllSound(CompileRelabeled(cols).value)
    ensures Meanings(CompileRelabeled(cols).value) == RelabeledPieces(cols)
    decreases cols, 3
  {
    if cols != [] {
      RelabeledMeaning(cols[1..]);
      RelabeledColumnMeaning(cols[0]);
      ConsMeanings(CompileRelabeledColumn(cols[0]).value, CompileRelabeled(cols[1..]).value);
    }
  }

  /** A condition is typed from its buffer, which is right since the condition is well behaved. */
  lemma ConditionMeaning(o: Option<Node>, c: Clause)
    requires GoodCondition(o)
    requires o.None? ==> c == Glue("")
    requires o.Some? ==>
               match CompileNode(o.value).outcome
               case Ok(f) => c == Clause(f.sql, f.params, CompileNode(o.value).captured)
               case EmptyResultSet => c == Glue("0 = 1")
               case _ => c == Glue("")
    ensures Sound(c) && Meaning(c) == ConditionPieces(o)
    decreases o, 3
  {
    GlueMeaning("");
    PlainIsClean("0 = 1");
    GlueMeaning("0 = 1");
    if o.Some? && CompileNode(o.value).outcome.Ok? {
      WellBehavedIsAligned(o.value);
      NodeMeaning(o.value, true);
      assert c == NodeClause(o.value, true);
    }
  }

  lemma {:induction false} GroupMeaning(ns: seq<Node>)
    requires GoodNodes(ns) && CompileAll(ns).Ok?
    ensures AllSound(KeptGroups(CompileAll(ns).value))
    ensures Meanings(KeptGroups(CompileAll(ns).value)) == GroupPieces(ns)
    decreases ns, 3
  {
    if ns != [] {
      var f, rest := CompileNode(ns[0]).outcome.value, KeptGroups(CompileAll(ns[1..]).value);
      GroupMeaning(ns[1..]);
      if IsConstantSql(f.sql) {
        assert KeptGroups(CompileAll(ns).value) == rest;
      } else {
        UntypedMeaning(ns[0]);
        ConsMeanings(Untyped(f), rest);
      }
    }
  }

  lemma {:induction false} ColumnsCleanAliases(cols: seq<Column>)
    requires GoodColumns(cols) && CompileColumns(cols).Ok?
    ensures CleanAliases(CompileColumns(cols).value)
  {
    if cols != [] {
      ColumnsCleanAliases(cols[1..]);
    }
  }

  lemma TermMeaning(t: OrderTerm)
    requires GoodNode(TermNode(t)) && CompileNode(TermNode(t)).outcome.Ok?
    ensures var c := Untyped(ShownTerm(t, CompileNode(TermNode(t)).outcome.value).frag);
            Sound(c) && Meaning(c) == TermPieces(t)
    decreases t, 2
  {
    UntypedMeaning(TermNode(t));
    AnchoredMeaning(CompileNode(TermNode(t)).outcome.value);
  }

  lemma OrderTermMeaning(selected: seq<Selected>, distinct: bool, t: OrderTerm)
    requires CleanAliases(selected) && GoodNode(TermNode(t)) && CompileNode(TermNode(t)).outcome.Ok?
    requires HoleCount(TermDirection(ShownTerm(t, CompileNode(TermNode(t)).outcome.value).frag.sql)) == 0
    ensures var cs := OrderClause(RewriteOne(selected, distinct, ShownTerm(t, CompileNode(TermNode(t)).outcome.value)));
            AllSound(cs) && Meanings(cs) == OrderTermPieces(selected, distinct, t)
    decreases t, 3
  {
    var shown := ShownTerm(t, CompileNode(TermNode(t)).outcome.value);
    var f, new_ := shown.frag, RewriteOne(selected, distinct, shown);
    TermMeaning(t);
    if NeedsAlias(distinct, shown) && AliasFor(selected, TermBase(f.sql), f.params) >= 0 {
      RewrittenIsClean(selected, true, f);
      GlueMeaning(new_.sql);
      assert Untyped(new_) == Glue(new_.sql);
      KeptTermMeaning(new_, Chars(new_.sql));
    } else {
      KeptTermMeaning(f, TermPieces(t));
    }
  }

  lemma {:induction false} OrderMeaning(selected: seq<Selected>, distinct: bool, terms: seq<OrderTerm>)
    requires CleanAliases(selected) && GoodOrder(terms) && CompileOrder(terms).Ok?
    ensures var cs := KeptOrders(RewriteOrder(selected, distinct, CompileOrder(terms).value));
            AllSound(cs) && Meanings(cs) == OrderPieces(selected, distinct, terms)
    decreases terms, 3
  {
    if terms != [] {
      CompiledOrder(terms);
      var head := ShownTerm(terms[0], CompileNode(TermNode(terms[0])).outcome.value);
      OrderMeaning(selected, distinct, terms[1..]);
      OrderTermMeaning(selected, distinct, terms[0]);
      RewriteHead(selected, distinct, terms);
      AppendMeanings(OrderClause(RewriteOne(selected, distinct, head)),
                     KeptOrders(RewriteOrder(selected, distinct, CompileOrder(terms[1..]).value)));
    }
  }

  // ---- Queries ----

  lemma SelectMeaning(q: Query)
    requires q.Select? && GoodQuery(q) && CompileClauses(q).Ok?
    ensures var body := SelectBody(q, CompileClauses(q).value);
            Sound(body) && Meaning(body) == JoinPieces(SelectPieces(q), " ")
    decreases q, 4
  {
    CompiledClauses(q);
    var c := CompileClauses(q).value;
    var orders := RewriteOrder(c.cols, q.distinct, c.orders);
    ColumnListMeaning(q);
    NodesMeaning(q.from_);
    ConditionMeaning(q.where, c.where);
    ConditionMeaning(q.having, c.having);
    GroupMeaning(q.group);
    ColumnsCleanAliases(q.cols);
    OrderMeaning(c.cols, q.distinct, q.order);
    SelectBodyMeaning(q, c, orders, ColumnsPieces(q.cols) + ColumnsPieces(q.extra), NodesPieces(q.from_),
                      ConditionPieces(q.where), GroupPieces(q.group), ConditionPieces(q.having),
                      OrderPieces(c.cols, q.distinct, q.order));
  }

  lemma ColumnListMeaning(q: Query)
    requires q.Select? && GoodQuery(q) && CompileColumns(q.cols).Ok? && CompileColumns(q.extra).Ok?
    ensures var cs := ColumnClauses(CompileColumns(q.cols).value + CompileColumns(q.extra).value);
            AllSound(cs) && Meanings(cs) == ColumnsPieces(q.cols) + ColumnsPieces(q.extra)
    decreases q, 3
  {
    ColumnsMeaning(q.cols);
    ColumnsMeaning(q.extra);
    ColumnClausesConcat(CompileColumns(q.cols).value, CompileColumns(q.extra).value);
    AppendMeanings(ColumnClauses(CompileColumns(q.cols).value), ColumnClauses(CompileColumns(q.extra).value));
  }

  lemma {:induction false} PartsMeaning(parts: seq<Query>)
    requires GoodQueries(parts) && PartClauses(parts).Ok?
    ensures AllSound(PartClauses(parts).value)
    ensures Meanings(PartClauses(parts).value) == PartsPieces(parts)
    decreases parts, 3
  {
    if parts != [] {
      PartsMeaning(parts[1..]);
      var o := CompileQuery(parts[0], true);
      if o.Ok? {
        QueryMeaning(parts[0], true);
        PartMeaning(parts[0], o.value);
        ConsMeanings(PartClause(parts[0], o.value), PartClauses(parts[1..]).value);
      }
    }
  }

  lemma UnionMeaning(q: Query)
    requires q.Union? && GoodQuery(q) && UnionClause(q).Ok?
    ensures CompileOrder(q.order).Ok? && PartClauses(q.parts).Ok?
    ensures Sound(UnionClause(q).value)
    ensures Meaning(UnionClause(q).value)
         == AssembleUnion(PartsPieces(q.parts), q.all_, OrderPieces([], false, q.order), q.limit)
    decreases q, 4
  {
    CompiledUnion(q);
    PartsMeaning(q.parts);
    OrderMeaning([], false, q.order);
    UnionBodyMeaning(PartClauses(q.parts).value, q.all_, RewriteOrder([], false, CompileOrder(q.order).value), q.limit);
  }

  /**
   * The text of a compiled query, filled with its parameter list, is the query
   * as its tree reads: at any nesting depth, every leaf value stands where it
   * was written and carries the type that its own innermost query settles.
   */
  lemma {:induction false} QueryMeaning(q: Query, subquery: bool)
    requires GoodQuery(q) && CompileQuery(q, subquery).Ok?
    ensures QueryClause(q, subquery).Ok? && Sound(QueryClause(q, subquery).value)
    ensures var st := CompileQuery(q, subquery).value;
            && HoleCount(st.sql) == |st.bounds| && !EndsOpen(st.sql)
            && Fill(st.sql, Wrapped(st.bounds)) == QueryPieces(q, subquery)
    decreases q, 5
  {
    CompiledQuery(q, subquery);
    if q.Select? {
      SelectMeaning(q);
      if subquery && q.extra != [] {
        RelabeledMeaning(q.cols);
        WrapperMeaning(CompileRelabeled(q.cols).value, SelectBody(q, CompileClauses(q).value));
      }
    } else {
      UnionMeaning(q);
    }
  }
}

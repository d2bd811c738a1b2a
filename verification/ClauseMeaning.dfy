/** What the clauses of a SELECT and of a UNION mean once put together, given what each clause means. */
module ClauseMeaning {
  import opened Placeholders
  import opened ConstantTerms
  import opened Parameters
  import opened Fragments
  import opened OrderAliases
  import opened QueryTree
  import opened Lists

  // ---- A piece at a time ----

  lemma OwnMeaning(v: PyValue, ty: FieldType)
    ensures Sound(Clause("%s", [Plain(v)], [ty]))
    ensures Meaning(Clause("%s", [Plain(v)], [ty])) == [Par(ResolveOne(ty, v))]
  {
    var c := Clause("%s", [Plain(v)], [ty]);
    assert "%s"[2..] == "" && Bounds(c)[1..] == [];
    assert Fill("%s", Bounds(c)) == [Par(Bounds(c)[0])] + Fill("", Bounds(c)[1..]);
  }

  lemma SurroundedClause(before: string, text: string, after: string, params: seq<Param>, types: seq<FieldType>)
    ensures Clause(before + text + after, params, types)
         == Cat(Glue(before), Cat(Clause(text, params, types), Glue(after)))
  {
    Unit(params);
    Unit(types);
    Assoc(before, text, after);
  }

  lemma PlainIsClean(s: string)
    requires '%' !in s
    ensures CleanText(s)
  {
    PercentFree(s);
  }

  lemma SuffixMeaning(c: Clause, after: string)
    requires Sound(c) && '%' !in after
    ensures Sound(Cat(c, Glue(after))) && Meaning(Cat(c, Glue(after))) == Meaning(c) + Chars(after)
  {
    PlainIsClean(after);
    GlueMeaning(after);
    CatMeaning(c, Glue(after));
  }

  lemma PlainSurroundMeaning(before: string, c: Clause, after: string)
    requires '%' !in before && Sound(c) && '%' !in after
    ensures var all := Cat(Glue(before), Cat(c, Glue(after)));
            Sound(all) && Meaning(all) == Chars(before) + Meaning(c) + Chars(after)
  {
    PlainIsClean(before);
    PlainIsClean(after);
    SurroundMeaning(before, c, after);
  }

  // ---- Lists of clauses ----

  lemma ConsMeanings(c: Clause, cs: seq<Clause>)
    requires Sound(c) && AllSound(cs)
    ensures AllSound([c] + cs) && Meanings([c] + cs) == [Meaning(c)] + Meanings(cs)
  {
  }

  lemma AppendMeanings(a: seq<Clause>, b: seq<Clause>)
    requires AllSound(a) && AllSound(b)
    ensures AllSound(a + b) && Meanings(a + b) == Meanings(a) + Meanings(b)
  {
  }

  lemma OneMeaning(c: Clause)
    requires Sound(c)
    ensures AllSound([c]) && Meanings([c]) == [Meaning(c)]
  {
  }

  lemma FourMeanings(a: seq<Clause>, b: seq<Clause>, c: seq<Clause>, d: seq<Clause>)
    requires AllSound(a) && AllSound(b) && AllSound(c) && AllSound(d)
    ensures AllSound(a + b + c + d)
    ensures Meanings(a + b + c + d) == Meanings(a) + Meanings(b) + Meanings(c) + Meanings(d)
  {
    AppendMeanings(a, b);
    AppendMeanings(a + b, c);
    AppendMeanings(a + b + c, d);
  }

  lemma JoinedMeaning(head: Clause, tail: Clause, m: Pieces, e: Pieces)
    requires Sound(head) && Sound(tail) && Meaning(tail) == m + e
    ensures Sound(Cat(head, tail)) && Meaning(Cat(head, tail)) == Meaning(head) + m + e
  {
    CatMeaning(head, tail);
    var h := Meaning(head);
    assert h + (m + e) == h + m + e;
  }

  lemma PlainJoinMeaning(cs: seq<Clause>, sep: string)
    requires AllSound(cs) && '%' !in sep
    ensures Sound(JoinClauses(cs, sep)) && Meaning(JoinClauses(cs, sep)) == JoinPieces(Meanings(cs), sep)
  {
    PlainIsClean(sep);
    JoinMeaning(cs, sep);
  }

  lemma TextMeaning(s: string)
    requires '%' !in s
    ensures AllSound([Glue(s)]) && Meanings([Glue(s)]) == [Chars(s)]
  {
    PlainIsClean(s);
    GlueMeaning(s);
  }

  // ---- Terms of ORDER BY ----

  predicate CleanAliases(selected: seq<Selected>) {
    forall i :: 0 <= i < |selected| ==> CleanText(selected[i].alias)
  }

  lemma QuotedIsClean(name: string, before: string)
    requires CleanText(name) && CleanText(before)
    ensures CleanText(before + QuoteName(name))
  {
    var q := QuoteName(name);
    assert CleanText(q) by {
      if q != name {
        HoleCountConcat("`", name);
        HoleCountConcat("`" + name, "`");
        assert q == ("`" + name) + "`";
      }
    }
    HoleCountConcat(before, q);
    assert q != "";
  }

  lemma DirectionEnds(s: string)
    requires !EndsOpen(s)
    ensures !EndsOpen(TermDirection(s))
  {
    var d := TermDirection(s);
    if d != "" {
      assert d == s[LastDirection(s)..];
      assert d[|d| - 1] == s[|s| - 1];
    }
  }

  lemma CleanJoined(a: string, b: string)
    requires CleanText(a) && CleanText(b)
    ensures CleanText(a + b)
  {
    HoleCountConcat(a, b);
    if b == "" { Unit(a); }
  }

  /** A rewritten term has neither parameters nor holes. */
  lemma RewrittenIsClean(selected: seq<Selected>, needed: bool, f: Frag)
    requires CleanAliases(selected) && HoleCount(TermDirection(f.sql)) == 0 && !EndsOpen(f.sql)
    requires needed && AliasFor(selected, TermBase(f.sql), f.params) >= 0
    ensures var new_ := RewriteTerm(selected, needed, f);
            new_.params == [] && CleanText(new_.sql)
  {
    var alias := selected[AliasFor(selected, TermBase(f.sql), f.params)].alias;
    PercentFree("");
    QuotedIsClean(alias, "");
    Unit(QuoteName(alias));
    DirectionEnds(f.sql);
    CleanJoined(QuoteName(alias), TermDirection(f.sql));
  }

  /** The clause of one ORDER BY term, unless its base is constant. */
  function OrderClause(new_: Frag): seq<Clause> {
    if IsConstantSql(TermBase(new_.sql)) then [] else [Untyped(new_)]
  }

  lemma AnchoredMeaning(f: Frag)
    requires Sound(Untyped(f))
    ensures Sound(Untyped(Anchored(f)))
    ensures Meaning(Untyped(Anchored(f))) == Chars("Random(") + Meaning(Untyped(f)) + Chars(", CurrentUtcTimestamp())")
  {
    var c := Untyped(f);
    PlainSurroundMeaning("Random(", c, ", CurrentUtcTimestamp())");
    SurroundedClause("Random(", f.sql, ", CurrentUtcTimestamp())", f.params, c.types);
  }

  lemma KeptTermMeaning(f: Frag, m: Pieces)
    requires Sound(Untyped(f)) && Meaning(Untyped(f)) == m
    ensures AllSound(OrderClause(f))
    ensures Meanings(OrderClause(f)) == if IsConstantSql(TermBase(f.sql)) then [] else [m]
  {
    OneMeaning(Untyped(f));
  }

  lemma RewriteHead(selected: seq<Selected>, distinct: bool, terms: seq<OrderTerm>)
    requires terms != [] && CompileOrder(terms).Ok?
    ensures CompileNode(TermNode(terms[0])).outcome.Ok? && CompileOrder(terms[1..]).Ok?
    ensures var shown := ShownTerm(terms[0], CompileNode(TermNode(terms[0])).outcome.value);
            var new_ := RewriteOne(selected, distinct, shown);
            KeptOrders(RewriteOrder(selected, distinct, CompileOrder(terms).value))
            == OrderClause(new_) + KeptOrders(RewriteOrder(selected, distinct, CompileOrder(terms[1..]).value))
  {
    CompiledOrder(terms);
    var all := CompileOrder(terms).value;
    assert all[1..] == CompileOrder(terms[1..]).value;
    var fs := RewriteOrder(selected, distinct, all);
    assert fs[1..] == RewriteOrder(selected, distinct, all[1..]);
  }

  // ---- Clauses with a head ----

  function HeadedPieces(head: string, ps: seq<Pieces>): seq<Pieces> {
    if ps == [] then [] else [Chars(head) + JoinPieces(ps, ", ")]
  }

  lemma HeadedMeaning(head: string, cs: seq<Clause>, ps: seq<Pieces>)
    requires '%' !in head && AllSound(cs) && Meanings(cs) == ps
    ensures AllSound(Headed(head, cs)) && Meanings(Headed(head, cs)) == HeadedPieces(head, ps)
  {
    if cs != [] {
      PlainIsClean(head);
      PlainJoinMeaning(cs, ", ");
      PrefixMeaning(head, JoinClauses(cs, ", "));
    }
  }

  lemma ConditionPart(head: string, c: Clause)
    requires '%' !in head && Sound(c)
    ensures AllSound(Condition(head, c))
    ensures Meanings(Condition(head, c)) == if Meaning(c) == [] then [] else [Chars(head) + Meaning(c)]
  {
    PlainIsClean(head);
    EmptyMeaning(c);
    PrefixMeaning(head, c);
  }

  lemma LimitedMeaning(limit: string)
    requires CleanText(limit)
    ensures AllSound(Limited(limit))
    ensures Meanings(Limited(limit)) == if limit == "" then [] else [Chars(limit)]
  {
    GlueMeaning(limit);
  }

  // ---- SELECT ----

  /** The parts of a SELECT in the order YQL has them. */
  function AssembleSelect(q: Query, cols: seq<Pieces>, from_: seq<Pieces>, where: Pieces, groups: seq<Pieces>,
                          having: Pieces, orders: seq<Pieces>): seq<Pieces>
    requires q.Select?
  {
    [Chars("SELECT")]
    + (if q.distinct then [Chars("DISTINCT")] else [])
    + [JoinPieces(cols, ", ")]
    + (if from_ == [] then [] else [Chars("FROM")] + from_)
    + (if where == [] then [] else [Chars("WHERE ") + where])
    + HeadedPieces("GROUP BY ", groups)
    + (if having == [] then [] else [Chars("HAVING ") + having])
    + (if groups != [] && q.metaOrdering then [] else HeadedPieces("ORDER BY ", orders))
    + (if q.limit == "" then [] else [Chars(q.limit)])
  }

  /** The clauses of a SELECT are sound, and mean these pieces. */
  predicate ClausesMean(c: Compilation, orders: seq<Frag>, cols: seq<Pieces>, from_: seq<Pieces>, where: Pieces,
                        groups: seq<Pieces>, having: Pieces, terms: seq<Pieces>) {
    && AllSound(ColumnClauses(c.cols + c.extra)) && Meanings(ColumnClauses(c.cols + c.extra)) == cols
    && AllSound(UntypedAll(c.from_)) && Meanings(UntypedAll(c.from_)) == from_
    && Sound(c.where) && Meaning(c.where) == where
    && AllSound(KeptGroups(c.groups)) && Meanings(KeptGroups(c.groups)) == groups
    && Sound(c.having) && Meaning(c.having) == having
    && AllSound(KeptOrders(orders)) && Meanings(KeptOrders(orders)) == terms
  }

  lemma {:induction false} ColumnClausesConcat(a: seq<Selected>, b: seq<Selected>)
    ensures ColumnClauses(a + b) == ColumnClauses(a) + ColumnClauses(b)
  {
  }

  lemma SelectBodyMeaning(q: Query, c: Compilation, orders: seq<Frag>, cols: seq<Pieces>, from_: seq<Pieces>,
                          where: Pieces, groups: seq<Pieces>, having: Pieces, terms: seq<Pieces>)
    requires q.Select? && CleanText(q.limit) && ClausesMean(c, orders, cols, from_, where, groups, having, terms)
    requires orders == RewriteOrder(c.cols, q.distinct, c.orders)
    ensures Sound(SelectBody(q, c))
    ensures Meaning(SelectBody(q, c)) == JoinPieces(AssembleSelect(q, cols, from_, where, groups, having, terms), " ")
  {
    var front, tail := SelectFront(q, c), SelectTail(q, c, orders);
    SelectFrontMeaning(q, c, cols, from_, where);
    SelectTailMeaning(q, c, orders, groups, having, terms);
    AppendMeanings(front, tail);
    AssocTail(Meanings(front), HeadedPieces("GROUP BY ", groups),
                if having == [] then [] else [Chars("HAVING ") + having],
                if groups != [] && q.metaOrdering then [] else HeadedPieces("ORDER BY ", terms),
                if q.limit == "" then [] else [Chars(q.limit)]);
    PlainJoinMeaning(front + tail, " ");
  }

  lemma SelectFrontMeaning(q: Query, c: Compilation, cols: seq<Pieces>, from_: seq<Pieces>, where: Pieces)
    requires q.Select? && Sound(c.where) && Meaning(c.where) == where
    requires AllSound(ColumnClauses(c.cols + c.extra)) && Meanings(ColumnClauses(c.cols + c.extra)) == cols
    requires AllSound(UntypedAll(c.from_)) && Meanings(UntypedAll(c.from_)) == from_
    ensures AllSound(SelectFront(q, c))
    ensures Meanings(SelectFront(q, c)) ==
              [Chars("SELECT")]
              + (if q.distinct then [Chars("DISTINCT")] else [])
              + [JoinPieces(cols, ", ")]
              + (if from_ == [] then [] else [Chars("FROM")] + from_)
              + (if where == [] then [] else [Chars("WHERE ") + where])
  {
    var columns := ColumnClauses(c.cols + c.extra);
    var head := SelectHead(q.distinct) + [JoinClauses(columns, ", ")];
    HeadMeaning(q.distinct, columns);
    SourceMeaning(UntypedAll(c.from_));
    var source := Source(UntypedAll(c.from_));
    AppendMeanings(head, source);
    ConditionPart("WHERE ", c.where);
    AppendMeanings(head + source, Condition("WHERE ", c.where));
    assert SelectFront(q, c) == head + source + Condition("WHERE ", c.where);
  }

  function SelectHead(distinct: bool): seq<Clause> {
    [Glue("SELECT")] + if distinct then [Glue("DISTINCT")] else []
  }

  lemma HeadMeaning(distinct: bool, columns: seq<Clause>)
    requires AllSound(columns)
    ensures var head := SelectHead(distinct) + [JoinClauses(columns, ", ")];
            AllSound(head) && Meanings(head)
              == [Chars("SELECT")] + (if distinct then [Chars("DISTINCT")] else [])
                 + [JoinPieces(Meanings(columns), ", ")]
  {
    TextMeaning("SELECT");
    TextMeaning("DISTINCT");
    AppendMeanings([Glue("SELECT")], if distinct then [Glue("DISTINCT")] else []);
    PlainJoinMeaning(columns, ", ");
    OneMeaning(JoinClauses(columns, ", "));
    AppendMeanings(SelectHead(distinct), [JoinClauses(columns, ", ")]);
  }

  function Source(tables: seq<Clause>): seq<Clause> {
    if tables == [] then [] else [Glue("FROM")] + tables
  }

  lemma SourceMeaning(tables: seq<Clause>)
    requires AllSound(tables)
    ensures AllSound(Source(tables))
    ensures Meanings(Source(tables)) == if tables == [] then [] else [Chars("FROM")] + Meanings(tables)
  {
    TextMeaning("FROM");
    AppendMeanings([Glue("FROM")], tables);
  }

  lemma SelectTailMeaning(q: Query, c: Compilation, orders: seq<Frag>, groups: seq<Pieces>, having: Pieces,
                          terms: seq<Pieces>)
    requires q.Select? && CleanText(q.limit) && Sound(c.having) && Meaning(c.having) == having
    requires AllSound(KeptGroups(c.groups)) && Meanings(KeptGroups(c.groups)) == groups
    requires AllSound(KeptOrders(orders)) && Meanings(KeptOrders(orders)) == terms
    ensures AllSound(SelectTail(q, c, orders))
    ensures Meanings(SelectTail(q, c, orders)) ==
              HeadedPieces("GROUP BY ", groups)
              + (if having == [] then [] else [Chars("HAVING ") + having])
              + (if groups != [] && q.metaOrdering then [] else HeadedPieces("ORDER BY ", terms))
              + (if q.limit == "" then [] else [Chars(q.limit)])
  {
    var grouped, filtered := Headed("GROUP BY ", KeptGroups(c.groups)), Condition("HAVING ", c.having);
    var ordered := if KeptGroups(c.groups) != [] && q.metaOrdering then [] else Headed("ORDER BY ", KeptOrders(orders));
    HeadedMeaning("GROUP BY ", KeptGroups(c.groups), groups);
    ConditionPart("HAVING ", c.having);
    HeadedMeaning("ORDER BY ", KeptOrders(orders), terms);
    LimitedMeaning(q.limit);
    FourMeanings(grouped, filtered, ordered, Limited(q.limit));
  }

  lemma WrapperMeaning(subSelects: seq<Clause>, body: Clause)
    requires AllSound(subSelects) && Sound(body)
    ensures var c := WrapperClause(subSelects, body);
            Sound(c) && Meaning(c) == Chars("SELECT ") + JoinPieces(Meanings(subSelects), ", ") + Chars(" FROM (")
                                    + Meaning(body) + Chars(") subquery")
  {
    var cols := JoinClauses(subSelects, ", ");
    PlainJoinMeaning(subSelects, ", ");
    PlainSurroundMeaning("SELECT ", cols, " FROM (");
    SuffixMeaning(body, ") subquery");
    JoinedMeaning(Cat(Glue("SELECT "), Cat(cols, Glue(" FROM ("))), Cat(body, Glue(") subquery")),
                  Meaning(body), Chars(") subquery"));
  }

  // ---- UNION ----

  function AssembleUnion(parts: seq<Pieces>, all_: bool, orders: seq<Pieces>, limit: string): Pieces {
    JoinPieces([JoinPieces(parts, UnionOperator(all_))] + HeadedPieces("ORDER BY ", orders)
               + (if limit == "" then [] else [Chars(limit)]), " ")
  }

  lemma PartMeaning(part: Query, st: Statement)
    requires HoleCount(st.sql) == |st.bounds| && !EndsOpen(st.sql)
    ensures var c := PartClause(part, st);
            var ps := Fill(st.sql, Wrapped(st.bounds));
            Sound(c) && Meaning(c) == if part.Union? then Chars("SELECT * FROM (") + ps + Chars(")") else ps
  {
    var c := Untyped(Frag(st.sql, TypedParams(st.bounds)));
    TypedParamsPassThrough(c.types, st.bounds);
    assert Meaning(c) == Fill(st.sql, Wrapped(st.bounds));
    if part.Union? {
      PlainSurroundMeaning("SELECT * FROM (", c, ")");
    }
  }

  lemma UnionBodyMeaning(cs: seq<Clause>, all_: bool, orders: seq<Frag>, limit: string)
    requires AllSound(cs) && AllSound(KeptOrders(orders)) && CleanText(limit)
    ensures var c := UnionBody(JoinClauses(cs, UnionOperator(all_)), orders, limit);
            Sound(c) && Meaning(c) == AssembleUnion(Meanings(cs), all_, Meanings(KeptOrders(orders)), limit)
  {
    var body := JoinClauses(cs, UnionOperator(all_));
    PlainJoinMeaning(cs, UnionOperator(all_));
    OrderedMeaning(body, "ORDER BY ", KeptOrders(orders), limit);
    PlainJoinMeaning([body] + Headed("ORDER BY ", KeptOrders(orders)) + Limited(limit), " ");
  }

  lemma OrderedMeaning(body: Clause, head: string, terms: seq<Clause>, limit: string)
    requires Sound(body) && '%' !in head && AllSound(terms) && CleanText(limit)
    ensures var parts := [body] + Headed(head, terms) + Limited(limit);
            AllSound(parts) && Meanings(parts)
              == [Meaning(body)] + HeadedPieces(head, Meanings(terms)) + (if limit == "" then [] else [Chars(limit)])
  {
    OneMeaning(body);
    HeadedMeaning(head, terms, Meanings(terms));
    LimitedMeaning(limit);
    AppendMeanings([body], Headed(head, terms));
    AppendMeanings([body] + Headed(head, terms), Limited(limit));
  }
}

/**
 * Holes against parameters where texts may hold `%s` of their own, as an escaped
 * percent sign before an `s` does: how many more holes than parameters are there?
 */
module HoleBalance {
  import opened Placeholders
  import opened Parameters
  import opened Fragments
  import opened QueryTree
  import opened CaptureAlignment
  import opened ClauseMeaning
  import opened Lists

  // ---- Clauses ----

  /** How many more holes a clause has than parameters. */
  function Excess(c: Clause): int {
    HoleCount(c.sql) - |c.params|
  }

  function ExcessAll(cs: seq<Clause>): int {
    if cs == [] then 0 else Excess(cs[0]) + ExcessAll(cs[1..])
  }

  /** No text ends in a percent sign, which what follows could turn into a hole. */
  predicate AllClosed(cs: seq<Clause>) {
    forall c :: c in cs ==> !EndsOpen(c.sql)
  }

  lemma CatExcess(a: Clause, b: Clause)
    requires !EndsOpen(a.sql)
    ensures Excess(Cat(a, b)) == Excess(a) + Excess(b)
    ensures !EndsOpen(b.sql) ==> !EndsOpen(Cat(a, b).sql)
  {
    HoleCountConcat(a.sql, b.sql);
    if b.sql == "" { Unit(a.sql); }
  }

  lemma GlueExcess(s: string)
    requires CleanText(s)
    ensures Excess(Glue(s)) == 0
  {
  }

  lemma {:induction false} ExcessConcat(a: seq<Clause>, b: seq<Clause>)
    ensures ExcessAll(a + b) == ExcessAll(a) + ExcessAll(b)
    ensures AllClosed(a) && AllClosed(b) ==> AllClosed(a + b)
  {
    if a == [] {
      Unit(b);
    } else {
      Cons(a, b);
      ExcessConcat(a[1..], b);
    }
  }

  lemma FourExcesses(a: seq<Clause>, b: seq<Clause>, c: seq<Clause>, d: seq<Clause>)
    requires AllClosed(a) && AllClosed(b) && AllClosed(c) && AllClosed(d)
    ensures AllClosed(a + b + c + d)
    ensures ExcessAll(a + b + c + d) == ExcessAll(a) + ExcessAll(b) + ExcessAll(c) + ExcessAll(d)
  {
    ExcessConcat(a, b);
    ExcessConcat(a + b, c);
    ExcessConcat(a + b + c, d);
  }

  lemma ExcessOne(c: Clause)
    ensures ExcessAll([c]) == Excess(c)
  {
    assert [c][1..] == [];
  }

  lemma {:induction false} JoinExcess(cs: seq<Clause>, sep: string)
    requires AllClosed(cs) && CleanText(sep)
    ensures Excess(JoinClauses(cs, sep)) == ExcessAll(cs) && !EndsOpen(JoinClauses(cs, sep).sql)
  {
    if |cs| == 1 {
      assert cs == [cs[0]] && cs[0] in cs;
      ExcessOne(cs[0]);
    } else if cs != [] {
      assert cs[0] in cs && forall c :: c in cs[1..] ==> c in cs;
      JoinExcess(cs[1..], sep);
      CatExcess(Glue(sep), JoinClauses(cs[1..], sep));
      CatExcess(cs[0], Cat(Glue(sep), JoinClauses(cs[1..], sep)));
    }
  }

  lemma SurroundExcess(before: string, c: Clause, after: string)
    requires CleanText(before) && CleanText(after) && !EndsOpen(c.sql)
    ensures Excess(Cat(Glue(before), Cat(c, Glue(after)))) == Excess(c)
    ensures !EndsOpen(Cat(Glue(before), Cat(c, Glue(after))).sql)
  {
    CatExcess(c, Glue(after));
    CatExcess(Glue(before), Cat(c, Glue(after)));
  }

  // ---- Expressions ----

  /** No text that an expression is made of ends in a percent sign. */
  predicate Closed(n: Node)
    decreases n
  {
    match n
    case Expr(_, children, body) =>
      && (forall i :: 0 <= i < |children| ==> Closed(ChildAt(n, i)))
      && (body.Template? ==> forall i :: 0 <= i < |body.items| && body.items[i].Text? ==> !EndsOpen(body.items[i].s))
    case RawSql(_, text, _) => !EndsOpen(text)
    case Subquery(_, query) => CompileQuery(query, true).Ok? ==> !EndsOpen(CompileQuery(query, true).value.sql)
  }

  /**
   * The holes that no parameter answers, by where they come from: texts of the
   * expression's own, raw SQL, and subqueries. A child counts wherever its
   * parent shows it.
   */
  function Surplus(n: Node): int
    requires CompileNode(n).outcome.Ok?
    decreases n, 1
  {
    match n
    case Expr(_, _, body) =>
      FilledRun(n);
      ItemsSurplus(body.items, n)
    case RawSql(_, text, rawParams) => HoleCount(text) - |rawParams|
    case Subquery(_, query) =>
      var st := CompileQuery(query, true).value;
      HoleCount(st.sql) - |st.bounds|
  }

  function ItemsSurplus(items: seq<Item>, n: Node): int
    requires n.Expr?
    decreases n, 0, |items|
  {
    if items == [] then 0 else ItemSurplus(items[0], n) + ItemsSurplus(items[1..], n)
  }

  function ItemSurplus(item: Item, n: Node): int
    requires n.Expr?
    decreases n, 0, 0
  {
    match item
    case Text(s) => HoleCount(s)
    case Own(_) => 0
    case Ref(i) => if i < |n.children| && CompileNode(ChildAt(n, i)).outcome.Ok? then Surplus(ChildAt(n, i)) else 0
  }

  /**
   * A compiled expression has as many more holes than parameters as its texts
   * have of their own; so the two agree exactly when these come to nothing.
   */
  lemma {:induction false} NodeBalance(n: Node)
    requires Closed(n) && CompileNode(n).outcome.Ok?
    ensures var f := CompileNode(n).outcome.value;
            HoleCount(f.sql) - |f.params| == Surplus(n) && !EndsOpen(f.sql)
    decreases n, 1
  {
    match n
    case Expr(_, _, body) =>
      FilledRun(n);
      ItemsBalance(body.items, n);
    case RawSql(_, text, rawParams) =>
      Parenthesised(text, rawParams);
    case Subquery(_, query) =>
      var st := CompileQuery(query, true).value;
      Parenthesised(st.sql, TypedParams(st.bounds));
  }

  lemma Parenthesised(text: string, ps: seq<Param>)
    requires !EndsOpen(text)
    ensures HoleCount("(" + text + ")") == HoleCount(text) && !EndsOpen("(" + text + ")")
  {
    HoleCountConcat(text, ")");
    HoleCountConcat("(", text + ")");
    Assoc("(", text, ")");
  }

  lemma {:induction false} ItemsBalance(items: seq<Item>, n: Node)
    requires n.Expr? && Closed(n) && CompileNode(n).outcome.Ok?
    requires forall i :: 0 <= i < |items| && items[i].Text? ==> !EndsOpen(items[i].s)
    ensures var f := Expand(items, RunChildren(n.children).results);
            HoleCount(f.sql) - |f.params| == ItemsSurplus(items, n) && !EndsOpen(f.sql)
    decreases n, 0, |items|
  {
    if items != [] {
      var a := ExpandItem(items[0], RunChildren(n.children).results);
      var b := Expand(items[1..], RunChildren(n.children).results);
      ItemBalance(items[0], n);
      ItemsBalance(items[1..], n);
      HoleCountConcat(a.sql, b.sql);
      if b.sql == "" { Unit(a.sql); }
    }
  }

  lemma {:induction false} ItemBalance(item: Item, n: Node)
    requires n.Expr? && Closed(n) && CompileNode(n).outcome.Ok?
    requires item.Text? ==> !EndsOpen(item.s)
    ensures var f := ExpandItem(item, RunChildren(n.children).results);
            HoleCount(f.sql) - |f.params| == ItemSurplus(item, n) && !EndsOpen(f.sql)
    decreases n, 0, 0
  {
    FilledRun(n);
    if item.Ref? && item.child < |n.children| && CompileNode(ChildAt(n, item.child)).outcome.Ok? {
      NodeBalance(ChildAt(n, item.child));
    }
    if item.Own? { assert HOLE[2..] == ""; }
  }

  /**
   * A percent sign doubled for `%`-formatting before an `s`, as in `LIKE '%%son'`:
   * naming takes a hole there and runs out of parameters.
   */
  lemma EscapedPercentIsTakenForHole(ty: FieldType, before: string, after: string)
    requires CleanText(before) && CleanText(after)
    ensures var text := before + ("%%s" + after);
            var n := Expr(ty, [], Template([Text(text)]));
            && CompileNode(n).outcome == Ok(Frag(text, [])) && Closed(n) && Surplus(n) == 1
            && NameStatement(Statement(text, [])) == Raised
  {
    var text := before + ("%%s" + after);
    OneText(ty, text);
    PercentOnce(after);
    HoleCountConcat(before, "%%s" + after);
  }

  lemma OneText(ty: FieldType, text: string)
    ensures var n := Expr(ty, [], Template([Text(text)]));
            && CompileNode(n).outcome == Ok(Frag(text, [])) && (!EndsOpen(text) ==> Closed(n))
            && Surplus(n) == HoleCount(text)
  {
    var items := [Text(text)];
    var n := Expr(ty, [], Template(items));
    assert items[1..] == [];
    assert Expand(items[1..], []) == Frag("", []);
    Unit(text);
    assert Expand(items, []) == Frag(text, []);
    assert ItemsSurplus(items[1..], n) == 0;
    assert ItemsSurplus(items, n) == HoleCount(text);
  }

  lemma PercentOnce(after: string)
    requires CleanText(after)
    ensures HoleCount("%%s" + after) == 1 && !EndsOpen("%%s" + after)
  {
    var s := "%%s" + after;
    assert s[1..] == "%s" + after && s[1..][2..] == after;
    assert !HoleAtStart(s) && HoleAtStart(s[1..]);
  }

  // ---- Statements ----

  lemma HeadedExcess(head: string, cs: seq<Clause>)
    requires '%' !in head && AllClosed(cs)
    ensures ExcessAll(Headed(head, cs)) == ExcessAll(cs) && AllClosed(Headed(head, cs))
  {
    if cs != [] {
      PlainIsClean(head);
      PlainIsClean(", ");
      JoinExcess(cs, ", ");
      CatExcess(Glue(head), JoinClauses(cs, ", "));
      ExcessOne(Cat(Glue(head), JoinClauses(cs, ", ")));
    }
  }

  lemma ConditionExcess(head: string, c: Clause)
    requires '%' !in head && !EndsOpen(c.sql) && (c.sql == "" ==> c.params == [])
    ensures ExcessAll(Condition(head, c)) == Excess(c) && AllClosed(Condition(head, c))
  {
    if c.sql != "" {
      PlainIsClean(head);
      CatExcess(Glue(head), c);
      ExcessOne(Cat(Glue(head), c));
    }
  }

  lemma LimitedExcess(limit: string)
    requires !EndsOpen(limit)
    ensures ExcessAll(Limited(limit)) == HoleCount(limit) && AllClosed(Limited(limit))
  {
    if limit != "" { ExcessOne(Glue(limit)); }
  }

  /** No clause of the compiled SELECT ends in a percent sign, and none without text has parameters. */
  predicate ClosedClauses(q: Query, c: Compilation)
    requires q.Select?
  {
    && AllClosed(ColumnClauses(c.cols + c.extra)) && AllClosed(UntypedAll(c.from_)) && AllClosed(KeptGroups(c.groups))
    && AllClosed(KeptOrders(RewriteOrder(c.cols, q.distinct, c.orders)))
    && !EndsOpen(c.where.sql) && !EndsOpen(c.having.sql) && !EndsOpen(q.limit)
    && (c.where.sql == "" ==> c.where.params == []) && (c.having.sql == "" ==> c.having.params == [])
  }

  function ShownOrders(q: Query, c: Compilation): seq<Clause>
    requires q.Select?
  {
    if KeptGroups(c.groups) != [] && q.metaOrdering then []
    else KeptOrders(RewriteOrder(c.cols, q.distinct, c.orders))
  }

  /** A SELECT has as many holes as parameters exactly when the clauses that it shows make up for each other. */
  lemma SelectBalance(q: Query, c: Compilation)
    requires q.Select? && ClosedClauses(q, c)
    ensures Excess(SelectBody(q, c))
         == ExcessAll(ColumnClauses(c.cols + c.extra)) + ExcessAll(UntypedAll(c.from_)) + Excess(c.where)
            + ExcessAll(KeptGroups(c.groups)) + Excess(c.having) + ExcessAll(ShownOrders(q, c)) + HoleCount(q.limit)
  {
    var front, tail := SelectFront(q, c), SelectTail(q, c, RewriteOrder(c.cols, q.distinct, c.orders));
    FrontExcess(q, c);
    TailExcess(q, c);
    ExcessConcat(front, tail);
    PlainIsClean(" ");
    JoinExcess(front + tail, " ");
  }

  lemma FrontExcess(q: Query, c: Compilation)
    requires q.Select? && ClosedClauses(q, c)
    ensures AllClosed(SelectFront(q, c))
    ensures ExcessAll(SelectFront(q, c))
         == ExcessAll(ColumnClauses(c.cols + c.extra)) + ExcessAll(UntypedAll(c.from_)) + Excess(c.where)
  {
    var columns, tables := ColumnClauses(c.cols + c.extra), UntypedAll(c.from_);
    var head := SelectHead(q.distinct);
    HeadExcess(q.distinct);
    ColumnsExcess(columns);
    SourceExcess(tables);
    ConditionExcess("WHERE ", c.where);
    FourExcesses(head, [JoinClauses(columns, ", ")], Source(tables), Condition("WHERE ", c.where));
    assert SelectFront(q, c)
        == head + [JoinClauses(columns, ", ")] + Source(tables) + Condition("WHERE ", c.where);
  }

  lemma ColumnsExcess(columns: seq<Clause>)
    requires AllClosed(columns)
    ensures var list := [JoinClauses(columns, ", ")];
            ExcessAll(list) == ExcessAll(columns) && AllClosed(list)
  {
    PlainIsClean(", ");
    JoinExcess(columns, ", ");
    ExcessOne(JoinClauses(columns, ", "));
  }

  lemma HeadExcess(distinct: bool)
    ensures ExcessAll(SelectHead(distinct)) == 0 && AllClosed(SelectHead(distinct))
  {
    PlainIsClean("SELECT");
    PlainIsClean("DISTINCT");
    ExcessOne(Glue("SELECT"));
    ExcessOne(Glue("DISTINCT"));
    ExcessConcat([Glue("SELECT")], if distinct then [Glue("DISTINCT")] else []);
  }

  lemma SourceExcess(tables: seq<Clause>)
    requires AllClosed(tables)
    ensures ExcessAll(Source(tables)) == ExcessAll(tables) && AllClosed(Source(tables))
  {
    PlainIsClean("FROM");
    ExcessOne(Glue("FROM"));
    ExcessConcat([Glue("FROM")], tables);
  }

  lemma TailParts(q: Query, c: Compilation)
    requires q.Select?
    ensures SelectTail(q, c, RewriteOrder(c.cols, q.distinct, c.orders))
         == Headed("GROUP BY ", KeptGroups(c.groups)) + Condition("HAVING ", c.having)
            + Headed("ORDER BY ", ShownOrders(q, c)) + Limited(q.limit)
  {
  }

  lemma TailExcess(q: Query, c: Compilation)
    requires q.Select? && ClosedClauses(q, c)
    ensures var tail := SelectTail(q, c, RewriteOrder(c.cols, q.distinct, c.orders));
            && AllClosed(tail)
            && ExcessAll(tail) == ExcessAll(KeptGroups(c.groups)) + Excess(c.having) + ExcessAll(ShownOrders(q, c))
                                  + HoleCount(q.limit)
  {
    TailParts(q, c);
    ClausesExcess(KeptGroups(c.groups), c.having, ShownOrders(q, c), q.limit);
  }

  lemma ClausesExcess(groups: seq<Clause>, having: Clause, orders: seq<Clause>, limit: string)
    requires AllClosed(groups) && !EndsOpen(having.sql) && AllClosed(orders) && !EndsOpen(limit)
    requires having.sql == "" ==> having.params == []
    ensures var tail := Headed("GROUP BY ", groups) + Condition("HAVING ", having) + Headed("ORDER BY ", orders)
                        + Limited(limit);
            && AllClosed(tail)
            && ExcessAll(tail) == ExcessAll(groups) + Excess(having) + ExcessAll(orders) + HoleCount(limit)
  {
    HeadedExcess("GROUP BY ", groups);
    ConditionExcess("HAVING ", having);
    HeadedExcess("ORDER BY ", orders);
    LimitedExcess(limit);
    FourExcesses(Headed("GROUP BY ", groups), Condition("HAVING ", having), Headed("ORDER BY ", orders),
                 Limited(limit));
  }

  /** So has a compound query, of its parts and its ORDER BY. */
  lemma UnionBalance(parts: seq<Clause>, all_: bool, orders: seq<Frag>, limit: string)
    requires AllClosed(parts) && AllClosed(KeptOrders(orders)) && !EndsOpen(limit)
    ensures Excess(UnionBody(JoinClauses(parts, UnionOperator(all_)), orders, limit))
         == ExcessAll(parts) + ExcessAll(KeptOrders(orders)) + HoleCount(limit)
  {
    var body := JoinClauses(parts, UnionOperator(all_));
    PlainIsClean(UnionOperator(all_));
    JoinExcess(parts, UnionOperator(all_));
    HeadedExcess("ORDER BY ", KeptOrders(orders));
    LimitedExcess(limit);
    ThreeExcesses(body, Headed("ORDER BY ", KeptOrders(orders)), Limited(limit));
    PlainIsClean(" ");
    JoinExcess([body] + Headed("ORDER BY ", KeptOrders(orders)) + Limited(limit), " ");
  }

  lemma ThreeExcesses(a: Clause, b: seq<Clause>, c: seq<Clause>)
    requires !EndsOpen(a.sql) && AllClosed(b) && AllClosed(c)
    ensures AllClosed([a] + b + c) && ExcessAll([a] + b + c) == Excess(a) + ExcessAll(b) + ExcessAll(c)
  {
    ExcessOne(a);
    ExcessConcat([a], b);
    ExcessConcat([a] + b, c);
  }

  /** Binding the values of a statement leaves the difference as it is. */
  lemma StatementBalance(q: Query, subquery: bool)
    requires CompileQuery(q, subquery).Ok?
    ensures QueryClause(q, subquery).Ok?
    ensures var st := CompileQuery(q, subquery).value;
            HoleCount(st.sql) == |st.bounds| <==> Excess(QueryClause(q, subquery).value) == 0
  {
    CompiledQuery(q, subquery);
  }
}

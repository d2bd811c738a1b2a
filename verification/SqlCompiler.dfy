/**
 * The compiler objects themselves: the mutable capture buffer, the `subquery`
 * flag, and the text, parameter and type lists that grow side by side.
 */
module SqlCompiler {
  import opened Options
  import opened PyText
  import opened Placeholders
  import opened ConstantTerms
  import opened Parameters
  import opened Fragments
  import opened OrderAliases
  import opened QueryTree
  import opened CaptureAlignment
  import opened WriteStatements
  import opened Lists

  // ---- Lists that grow side by side ----

  function Texts(cs: seq<Clause>): (ts: seq<string>)
    ensures |ts| == |cs|
  {
    if cs == [] then [] else [cs[0].sql] + Texts(cs[1..])
  }

  function AllParams(cs: seq<Clause>): seq<Param> {
    if cs == [] then [] else cs[0].params + AllParams(cs[1..])
  }

  function AllTypes(cs: seq<Clause>): seq<FieldType> {
    if cs == [] then [] else cs[0].types + AllTypes(cs[1..])
  }

  lemma {:induction false} ListsConcat(a: seq<Clause>, b: seq<Clause>)
    ensures Texts(a + b) == Texts(a) + Texts(b)
    ensures AllParams(a + b) == AllParams(a) + AllParams(b)
    ensures AllTypes(a + b) == AllTypes(a) + AllTypes(b)
  {
    if a == [] {
      Unit(b);
      Unit(Texts(b));
      Unit(AllParams(b));
      Unit(AllTypes(b));
    } else {
      Cons(a, b);
      ListsConcat(a[1..], b);
      Assoc([a[0].sql], Texts(a[1..]), Texts(b));
      Assoc(a[0].params, AllParams(a[1..]), AllParams(b));
      Assoc(a[0].types, AllTypes(a[1..]), AllTypes(b));
    }
  }

  lemma ListsOfOne(c: Clause)
    ensures Texts([c]) == [c.sql] && AllParams([c]) == c.params && AllTypes([c]) == c.types
  {
    assert [c][1..] == [];
  }

  /** Joining the texts and chaining the lists is joining the clauses. */
  lemma {:induction false} JoinLists(cs: seq<Clause>, sep: string)
    ensures JoinClauses(cs, sep) == Clause(Join(Texts(cs), sep), AllParams(cs), AllTypes(cs))
  {
    if cs == [] {
    } else if |cs| == 1 {
      ListsOfOne(cs[0]);
      assert cs == [cs[0]];
    } else {
      JoinLists(cs[1..], sep);
      assert Texts(cs)[1..] == Texts(cs[1..]);
      assert Join(Texts(cs), sep) == cs[0].sql + sep + Join(Texts(cs[1..]), sep);
      assert cs[0].sql + (sep + Join(Texts(cs[1..]), sep)) == Join(Texts(cs), sep);
      assert [] + AllParams(cs[1..]) == AllParams(cs[1..]) && [] + AllTypes(cs[1..]) == AllTypes(cs[1..]);
    }
  }

  /** The accumulators hold exactly these clauses. */
  ghost predicate Holds(result: seq<string>, params: seq<Param>, types: seq<FieldType>, parts: seq<Clause>) {
    result == Texts(parts) && params == AllParams(parts) && types == AllTypes(parts)
  }

  lemma HoldsMore(parts: seq<Clause>, more: seq<Clause>, texts: seq<string>, params: seq<Param>, types: seq<FieldType>)
    requires Holds(texts, params, types, more)
    ensures Holds(Texts(parts) + texts, AllParams(parts) + params, AllTypes(parts) + types, parts + more)
  {
    ListsConcat(parts, more);
  }

  lemma {:induction false} KeptGroupsSnoc(fs: seq<Frag>, f: Frag)
    ensures KeptGroups(fs + [f]) == KeptGroups(fs) + if IsConstantSql(f.sql) then [] else [Untyped(f)]
  {
    var last := if IsConstantSql(f.sql) then [] else [Untyped(f)];
    if fs == [] {
      Single(f);
      Unit([f]);
      Unit(last);
    } else {
      var rest := KeptGroups(fs[1..]);
      Cons(fs, [f]);
      KeptGroupsSnoc(fs[1..], f);
      assert KeptGroups(fs + [f]) == KeptGroups([fs[0]]) + (rest + last) by { HeadOfGroups(fs + [f]); }
      assert KeptGroups(fs) == KeptGroups([fs[0]]) + rest by { HeadOfGroups(fs); }
      Assoc(KeptGroups([fs[0]]), rest, last);
    }
  }

  lemma HeadOfGroups(fs: seq<Frag>)
    requires fs != []
    ensures KeptGroups(fs) == KeptGroups([fs[0]]) + KeptGroups(fs[1..])
  {
    Single(fs[0]);
  }

  lemma {:induction false} KeptOrdersSnoc(fs: seq<Frag>, f: Frag)
    ensures KeptOrders(fs + [f]) == KeptOrders(fs) + if IsConstantSql(TermBase(f.sql)) then [] else [Untyped(f)]
  {
    var last := if IsConstantSql(TermBase(f.sql)) then [] else [Untyped(f)];
    if fs == [] {
      Single(f);
      Unit([f]);
      Unit(last);
    } else {
      var rest := KeptOrders(fs[1..]);
      Cons(fs, [f]);
      KeptOrdersSnoc(fs[1..], f);
      assert KeptOrders(fs + [f]) == KeptOrders([fs[0]]) + (rest + last) by { HeadOfOrders(fs + [f]); }
      assert KeptOrders(fs) == KeptOrders([fs[0]]) + rest by { HeadOfOrders(fs); }
      Assoc(KeptOrders([fs[0]]), rest, last);
    }
  }

  lemma HeadOfOrders(fs: seq<Frag>)
    requires fs != []
    ensures KeptOrders(fs) == KeptOrders([fs[0]]) + KeptOrders(fs[1..])
  {
    Single(fs[0]);
  }

  lemma {:induction false} RewriteOrderSnoc(selected: seq<Selected>, distinct: bool, terms: seq<Ordered>, t: Ordered)
    ensures RewriteOrder(selected, distinct, terms + [t])
         == RewriteOrder(selected, distinct, terms) + [RewriteOne(selected, distinct, t)]
  {
    if terms == [] {
      assert [t][1..] == [];
    } else {
      assert (terms + [t])[1..] == terms[1..] + [t];
      RewriteOrderSnoc(selected, distinct, terms[1..], t);
    }
  }

  lemma ColumnClausesSnoc(ss: seq<Selected>, s: Selected)
    ensures ColumnClauses(ss + [s]) == ColumnClauses(ss) + [ColumnClause(s)]
  {
  }

  lemma UntypedAllSnoc(fs: seq<Frag>, f: Frag)
    ensures UntypedAll(fs + [f]) == UntypedAll(fs) + [Untyped(f)]
  {
  }

  /** What `super().compile` sees of a node: the outcome of `as_sql` and what its children captured. */
  function Nested(n: Node): Compiled {
    match n
    case Expr(_, children, body) =>
      var run := RunChildren(children);
      Compiled(if run.stopped then run.results[|run.results| - 1] else ExprSql(body, run.results), run.captured)
    case RawSql(_, text, rawParams) => Compiled(Ok(Frag("(" + text + ")", rawParams)), [])
    case Subquery(_, query) => Compiled(SubquerySql(CompileQuery(query, true)), [])
  }

  /** A statement as `as_sql` returns it, depending on the mode. */
  datatype Sql = Positional(st: Statement) | Finished(named: Named)

  function Emitted(q: Query, subquery: bool): Outcome<Sql> {
    if subquery then
      var st :- CompileQuery(q, true);
      Ok(Positional(st))
    else
      var named :- TopLevel(q);
      Ok(Finished(named))
  }

  /** What a loop yields in all that has `kept` so far and is to yield `rest`. */
  ghost function PartsAfter<T>(kept: seq<T>, rest: Outcome<seq<T>>): Outcome<seq<T>> {
    match rest
    case Ok(cs) => Ok(kept + cs)
    case EmptyResultSet => EmptyResultSet
    case FullResultSet => FullResultSet
    case Raised => Raised
  }

  class SQLCompiler {
    const query: Query
    /** `self.query.subquery`. */
    var subquery: bool
    /** `_captured_types`: the active capture buffer, or None. */
    var captured: Option<seq<FieldType>>

    constructor (query: Query, subquery: bool)
      ensures this.query == query && this.subquery == subquery && captured == None
    {
      this.query := query;
      this.subquery := subquery;
      captured := None;
    }

    ghost predicate Grown(before: Option<seq<FieldType>>, more: seq<FieldType>)
      reads this`captured
    {
      captured == if before.None? then None else Some(before.value + more)
    }

    /** `_ParamTypingMixin.compile`. */
    method Compile(n: Node) returns (r: Outcome<Frag>)
      modifies this`captured
      ensures r == CompileNode(n).outcome
      ensures Grown(old(captured), CompileNode(n).captured)
      decreases n, 2
    {
      var base := if captured.Some? then |captured.value| else 0;
      ghost var before, nested := captured, Nested(n).captured;
      r := NodeAsSql(n);
      assert CompileNode(n) == Record(n.ty, Nested(n).outcome, Nested(n).captured);
      if captured.Some? && r.Ok? && r.value.params != [] {
        var direct := |r.value.params| - (|captured.value| - base);
        if direct > 0 {
          assert before.value + nested + Repeat(n.ty, direct) == before.value + (nested + Repeat(n.ty, direct));
          captured := Some(captured.value + Repeat(n.ty, direct));
        }
      }
    }

    /** `node.as_sql(self, connection)`. */
    method NodeAsSql(n: Node) returns (r: Outcome<Frag>)
      modifies this`captured
      ensures r == Nested(n).outcome
      ensures Grown(old(captured), Nested(n).captured)
      decreases n, 1
    {
      assert captured.Some? ==> captured.value + [] == captured.value;
      match n
      case RawSql(_, text, rawParams) =>
        r := Ok(Frag("(" + text + ")", rawParams));
      case Subquery(_, query) =>
        var inner := new SQLCompiler(query, true);
        var s := inner.InSubqueryMode();
        var st :- s;
        r := Ok(Frag("(" + st.sql + ")", TypedParams(st.bounds)));
      case Expr(_, _, body) =>
        var results, stopped := CompileChildren(n);
        r := if stopped then results[|results| - 1] else ExprSql(body, results);
    }

    /** The children in order, up to the first whose exception the node does not swallow. */
    method CompileChildren(n: Node) returns (results: seq<Outcome<Frag>>, stopped: bool)
      requires n.Expr?
      modifies this`captured
      ensures results == RunChildren(n.children).results && stopped == RunChildren(n.children).stopped
      ensures Grown(old(captured), RunChildren(n.children).captured)
      decreases n, 0
    {
      var children := n.children;
      results, stopped := [], false;
      ghost var nested: seq<FieldType> := [];
      ghost var run := RunChildren(children);
      assert children[0..] == children;
      RunBegins(run);
      assert captured.Some? ==> captured.value + [] == captured.value;
      for i := 0 to |children|
        invariant Grown(old(captured), nested)
        invariant run == RunAfter(results, nested, RunChildren(children[i..]))
      {
        var child := children[i];
        ChildIsSmaller(n, i);
        var o := Compile(child.node);
        ghost var more := CompileNode(child.node).captured;
        GrownTwice(old(captured), nested, more);
        RunOn(children, i, results, nested);
        nested := nested + more;
        results := results + [o];
        if !o.Ok? && !Swallows(child, o) {
          return results, true;
        }
      }
      assert children[|children|..] == [];
      RunEnds(results, nested);
    }

    /** `_compile_capturing`: the caller's buffer is back however `compile` ends. */
    method CompileCapturing(n: Node) returns (r: Outcome<Clause>)
      modifies this`captured
      ensures captured == old(captured)
      ensures r == Captured(CompileNode(n))
      decreases n, 3
    {
      var previous := captured;
      captured := Some([]);
      var o := Compile(n);
      match o {
        case Ok(f) =>
          assert [] + CompileNode(n).captured == CompileNode(n).captured;
          r := Ok(Clause(f.sql, f.params, captured.value));
        case EmptyResultSet => r := EmptyResultSet;
        case FullResultSet => r := FullResultSet;
        case Raised => r := Raised;
      }
      captured := previous;
    }

    /** `as_sql`. */
    method AsSql() returns (r: Outcome<Sql>)
      requires captured == None
      modifies this`captured
      ensures captured == None
      ensures r == Emitted(query, subquery)
      decreases query, 4
    {
      var o: Outcome<Clause>;
      if query.Select? {
        o := SelectSql();
      } else {
        o := UnionSql();
      }
      assert o == QueryClause(query, subquery);
      assert !o.Ok? ==> CompileQuery(query, subquery) == o.PropagateFailure();
      var c :- o;
      var bounds :- Settled(ResolveTypedParams(c.types, c.params));
      assert CompileQuery(query, subquery) == Ok(Statement(c.sql, bounds));
      if subquery {
        return Ok(Positional(Statement(c.sql, bounds)));
      }
      var named :- NameAndBind(c.sql, bounds);
      r := Ok(Finished(named));
    }

    /** `as_sql` with the `subquery` flag set for the time of the call, as for a part of a compound query. */
    method InSubqueryMode() returns (r: Outcome<Statement>)
      requires captured == None
      modifies this
      ensures captured == None && subquery == old(subquery)
      ensures r == CompileQuery(query, true)
      decreases query, 5
    {
      var wasSubquery := subquery;
      subquery := true;
      var s := AsSql();
      subquery := wasSubquery;
      match s
      case Ok(Positional(st)) => r := Ok(st);
      case EmptyResultSet => r := EmptyResultSet;
      case FullResultSet => r := FullResultSet;
      case _ => r := Raised;
    }

    /** The WHERE of a query; only a condition that can never hold stops it, if at all. */
    method WhereSql(where: Option<Node>, elideEmpty: bool) returns (r: Outcome<Clause>)
      modifies this`captured
      ensures captured == old(captured)
      ensures r == WhereClause(where, elideEmpty)
      decreases where, 3
    {
      if where.None? { return Ok(Glue("")); }
      r := CompileCapturing(where.value);
      match r
      case EmptyResultSet => if !elideEmpty { r := Ok(Glue("0 = 1")); }
      case FullResultSet => r := Ok(Glue(""));
      case _ =>
    }

    method HavingSql(having: Option<Node>) returns (r: Outcome<Clause>)
      modifies this`captured
      ensures captured == old(captured)
      ensures r == HavingClause(having)
      decreases having, 3
    {
      if having.None? { return Ok(Glue("")); }
      r := CompileCapturing(having.value);
      if r.FullResultSet? { r := Ok(Glue("")); }
    }

    /** The clauses of a SELECT; all but the conditions are compiled without capturing. */
    method ClausesSql() returns (r: Outcome<Compilation>)
      requires query.Select? && captured == None
      modifies this`captured
      ensures captured == None
      ensures r == CompileClauses(query)
      decreases query, 2
    {
      var cols :- CompileColumnList(query.cols);
      var terms :- CompileOrderBy(query.order);
      var extra :- CompileColumnList(query.extra);
      var groups :- CompileList(query.group);
      var from_ :- CompileList(query.from_);
      var where :- WhereSql(query.where, query.elideEmpty);
      var having :- HavingSql(query.having);
      r := Ok(Compilation(cols, terms, extra, groups, from_, where, having));
    }

    /** Nodes compiled one after the other, without a buffer. */
    method CompileList(ns: seq<Node>) returns (r: Outcome<seq<Frag>>)
      requires captured == None
      modifies this`captured
      ensures captured == None
      ensures r == CompileAll(ns)
      decreases ns, 3
    {
      var fs: seq<Frag> := [];
      assert ns[0..] == ns;
      NothingBefore(CompileAll(ns));
      for i := 0 to |ns|
        invariant captured == None
        invariant CompileAll(ns) == PartsAfter(fs, CompileAll(ns[i..]))
      {
        assert ns[i..][0] == ns[i] && ns[i..][1..] == ns[i + 1..];
        var f :- Compile(ns[i]);
        PartsStep(fs, f, CompileAll(ns[i + 1..]));
        fs := fs + [f];
      }
      assert ns[|ns|..] == [];
      Unit(fs);
      r := Ok(fs);
    }

    /** The columns with their aliases (`get_select`, `get_extra_select`). */
    method CompileColumnList(cols: seq<Column>) returns (r: Outcome<seq<Selected>>)
      requires captured == None
      modifies this`captured
      ensures captured == None
      ensures r == CompileColumns(cols)
      decreases cols, 3
    {
      var ss: seq<Selected> := [];
      assert cols[0..] == cols;
      NothingBefore(CompileColumns(cols));
      for i := 0 to |cols|
        invariant captured == None
        invariant CompileColumns(cols) == PartsAfter(ss, CompileColumns(cols[i..]))
      {
        assert cols[i..][0] == cols[i] && cols[i..][1..] == cols[i + 1..] && cols[i].node < cols[i];
        var f :- Compile(cols[i].node);
        PartsStep(ss, Selected(f, cols[i].alias), CompileColumns(cols[i + 1..]));
        ss := ss + [Selected(f, cols[i].alias)];
      }
      assert cols[|cols|..] == [];
      Unit(ss);
      r := Ok(ss);
    }

    /** `get_order_by` up to the rewriting: Django's terms first, then ordinal references and random orders again. */
    method CompileOrderBy(terms: seq<OrderTerm>) returns (r: Outcome<seq<Ordered>>)
      requires captured == None
      modifies this`captured
      ensures captured == None
      ensures r == CompileOrder(terms)
      decreases terms, 4
    {
      var fs :- CompileOrderTerms(terms);
      var ordered: seq<Ordered> := [];
      assert terms[0..] == terms && fs[0..] == fs;
      NothingBefore(ExpandTerms(terms, fs));
      for i := 0 to |terms|
        invariant captured == None
        invariant ExpandTerms(terms, fs) == PartsAfter(ordered, ExpandTerms(terms[i..], fs[i..]))
      {
        var t := terms[i];
        assert terms[i..][0] == t && terms[i..][1..] == terms[i + 1..];
        assert fs[i..][0] == fs[i] && fs[i..][1..] == fs[i + 1..];
        var f := fs[i];
        match t.again {
          case AsIs =>
          case Ordinal(source) =>
            f :- Compile(source);
          case Random(anchor) =>
            var g :- Compile(anchor);
            f := Frag("Random(" + g.sql + ", CurrentUtcTimestamp())", g.params);
        }
        PartsStep(ordered, Ordered(f, t.aggregate, t.again.Random?), ExpandTerms(terms[i + 1..], fs[i + 1..]));
        ordered := ordered + [Ordered(f, t.aggregate, t.again.Random?)];
      }
      assert terms[|terms|..] == [];
      Unit(ordered);
      r := Ok(ordered);
    }

    method CompileOrderTerms(terms: seq<OrderTerm>) returns (r: Outcome<seq<Frag>>)
      requires captured == None
      modifies this`captured
      ensures captured == None
      ensures r == CompileTerms(terms)
      decreases terms, 3
    {
      var fs: seq<Frag> := [];
      assert terms[0..] == terms;
      NothingBefore(CompileTerms(terms));
      for i := 0 to |terms|
        invariant captured == None
        invariant CompileTerms(terms) == PartsAfter(fs, CompileTerms(terms[i..]))
      {
        assert terms[i..][0] == terms[i] && terms[i..][1..] == terms[i + 1..] && terms[i].node < terms[i];
        var f :- Compile(terms[i].node);
        PartsStep(fs, f, CompileTerms(terms[i + 1..]));
        fs := fs + [f];
      }
      assert terms[|terms|..] == [];
      Unit(fs);
      r := Ok(fs);
    }

    /** The columns of the wrapper; a column without alias is rendered again, as its relabelled clone. */
    method RelabeledList(cols: seq<Column>) returns (r: Outcome<seq<Clause>>)
      requires captured == None
      modifies this`captured
      ensures captured == None
      ensures r == CompileRelabeled(cols)
      decreases cols, 3
    {
      var cs: seq<Clause> := [];
      assert cols[0..] == cols;
      NothingBefore(CompileRelabeled(cols));
      for i := 0 to |cols|
        invariant captured == None
        invariant CompileRelabeled(cols) == PartsAfter(cs, CompileRelabeled(cols[i..]))
      {
        var col := cols[i];
        assert cols[i..][0] == col && cols[i..][1..] == cols[i + 1..] && col.relabeled < col;
        var c := Glue("`subquery`." + QuoteName(col.alias));
        if col.alias == "" {
          assert CompileNode(col.relabeled).outcome == Nested(col.relabeled).outcome;
          var f :- NodeAsSql(col.relabeled);
          c := Untyped(f);
        }
        PartsStep(cs, c, CompileRelabeled(cols[i + 1..]));
        cs := cs + [c];
      }
      assert cols[|cols|..] == [];
      Unit(cs);
      r := Ok(cs);
    }

    /** The SELECT branch of `as_sql`, up to the resolution of the parameters. */
    method SelectSql() returns (r: Outcome<Clause>)
      requires query.Select? && captured == None
      modifies this`captured
      ensures captured == None
      ensures r == SelectClause(query, subquery)
      decreases query, 3
    {
      var o := ClausesSql();
      var c :- o;
      var body := BodySql(c);
      if subquery && query.extra != [] {
        var subSelects :- RelabeledList(query.cols);
        r := Ok(WrapperClause(subSelects, body));
      } else {
        r := Ok(body);
      }
    }

    /** The clauses appended one after the other to the three lists. */
    method BodySql(c: Compilation) returns (r: Clause)
      requires query.Select?
      ensures r == SelectBody(query, c)
    {
      var result, params, types := FrontSql(c);
      ghost var parts := SelectFront(query, c);
      var grouping, ps, ts := GroupLists(c.groups);
      result, params, types :=
        AddHeaded(result, params, types, parts, "GROUP BY ", grouping, ps, ts, KeptGroups(c.groups));
      ghost var parts1 := parts + Headed("GROUP BY ", KeptGroups(c.groups));
      result, params, types := AddCondition(result, params, types, parts1, "HAVING ", c.having);
      ghost var parts2 := parts1 + Condition("HAVING ", c.having);
      ghost var orders := RewriteOrder(c.cols, query.distinct, c.orders);
      ghost var ordered := [];
      assert parts2 + ordered == parts2;
      if grouping == [] || !query.metaOrdering {
        var orderBy := GetOrderBy(c.cols, c.orders);
        var texts;
        texts, ps, ts := OrderLists(orderBy);
        result, params, types :=
          AddHeaded(result, params, types, parts2, "ORDER BY ", texts, ps, ts, KeptOrders(orderBy));
        ordered := Headed("ORDER BY ", KeptOrders(orderBy));
      }
      assert Holds(result, params, types, parts2 + ordered);
      result, params, types := AddText(result, params, types, parts2 + ordered, query.limit);
      AssocTail(parts, Headed("GROUP BY ", KeptGroups(c.groups)), Condition("HAVING ", c.having), ordered,
                Limited(query.limit));
      JoinLists(parts + SelectTail(query, c, orders), " ");
      r := Clause(Join(result, " "), params, types);
    }

    method FrontSql(c: Compilation) returns (result: seq<string>, params: seq<Param>, types: seq<FieldType>)
      requires query.Select?
      ensures Holds(result, params, types, SelectFront(query, c))
    {
      ghost var parts := [Glue("SELECT")] + if query.distinct then [Glue("DISTINCT")] else [];
      result, params, types := HeadSql();

      var texts, ps, ts := ColumnLists(c.cols + c.extra);
      ghost var list := JoinClauses(ColumnClauses(c.cols + c.extra), ", ");
      JoinLists(ColumnClauses(c.cols + c.extra), ", ");
      ListsOfOne(list);
      ListsConcat(parts, [list]);
      result, params, types := result + [Join(texts, ", ")], params + ps, types + ts;
      assert Holds(result, params, types, parts + [list]);

      texts, ps, ts := FragLists(c.from_);
      result, params, types := AddSource(result, params, types, parts + [list], texts, ps, ts, UntypedAll(c.from_));
      result, params, types := AddCondition(result, params, types,
        parts + [list] + (if c.from_ == [] then [] else [Glue("FROM")] + UntypedAll(c.from_)), "WHERE ", c.where);
    }

    method HeadSql() returns (result: seq<string>, params: seq<Param>, types: seq<FieldType>)
      requires query.Select?
      ensures Holds(result, params, types, [Glue("SELECT")] + if query.distinct then [Glue("DISTINCT")] else [])
    {
      result, params, types := ["SELECT"], [], [];
      ListsOfOne(Glue("SELECT"));
      if query.distinct {
        ListsOfOne(Glue("DISTINCT"));
        ListsConcat([Glue("SELECT")], [Glue("DISTINCT")]);
        result := result + ["DISTINCT"];
      }
    }

    /** `get_order_by`, on the terms and columns that Django compiled. */
    method GetOrderBy(selected: seq<Selected>, terms: seq<Ordered>) returns (fixed: seq<Frag>)
      requires query.Select?
      ensures fixed == RewriteOrder(selected, query.distinct, terms)
    {
      fixed := [];
      for i := 0 to |terms|
        invariant fixed == RewriteOrder(selected, query.distinct, terms[..i])
      {
        var f := terms[i].frag;
        if !terms[i].random && (query.distinct || terms[i].aggregate) {
          var j := AliasFor(selected, TermBase(f.sql), f.params);
          if j >= 0 {
            f := Frag(QuoteName(selected[j].alias) + TermDirection(f.sql), []);
          }
        }
        assert terms[..i + 1] == terms[..i] + [terms[i]];
        RewriteOrderSnoc(selected, query.distinct, terms[..i], terms[i]);
        fixed := fixed + [f];
      }
      assert terms[..|terms|] == terms;
    }

    /**
     * `get_combinator_sql`: every part is compiled in subquery mode, and every
     * part's own flag is back afterwards, whatever the outcome.
     */
    method GetCombinatorSql(compilers: seq<SQLCompiler>, parts: seq<Query>, all_: bool, check: PartCheck)
      returns (r: Outcome<Clause>)
      requires |compilers| == |parts|
      requires forall i :: 0 <= i < |compilers| ==> compilers[i].query == parts[i] && compilers[i].captured == None
      modifies compilers
      ensures forall c :: c in compilers ==> c.subquery == old(c.subquery) && c.captured == None
      ensures r == CombinatorClause(parts, all_, check)
      decreases parts, 2
    {
      if check.Checked? {
        var _ :- RefuseSliced(compilers, parts, check.selectKnown);
      }
      var o := KeptParts(compilers, parts);
      var kept :- o;
      if kept == [] { return EmptyResultSet; }
      r := Ok(JoinClauses(kept, UnionOperator(all_)));
    }

    /** The first part that is sliced or ordered, or whose ORDER BY raises, stops the query, or an unset select list. */
    method RefuseSliced(compilers: seq<SQLCompiler>, parts: seq<Query>, selectKnown: bool) returns (r: Outcome<()>)
      requires |compilers| == |parts|
      requires forall i :: 0 <= i < |compilers| ==> compilers[i].query == parts[i] && compilers[i].captured == None
      modifies compilers
      ensures forall c :: c in compilers ==> c.subquery == old(c.subquery) && c.captured == None
      ensures r == CheckParts(parts, selectKnown)
      decreases parts, 1
    {
      assert parts[0..] == parts;
      for i := 0 to |parts|
        invariant forall c :: c in compilers ==> c.subquery == old(c.subquery) && c.captured == None
        invariant CheckParts(parts, selectKnown) == CheckParts(parts[i..], selectKnown)
      {
        var part := parts[i];
        assert part in parts && compilers[i] in compilers;
        assert parts[i..][0] == part && parts[i..][1..] == parts[i + 1..];
        if part.limit != "" { return Raised; }
        if !selectKnown {
          var _ :- compilers[i].CompileOrderTerms(part.order);
          return Raised;
        }
        var terms :- compilers[i].CompileOrderBy(part.order);
        if terms != [] { return Raised; }
      }
      assert parts[|parts|..] == [];
      r := Ok(());
    }

    /** The parts that yield rows at all, each compiled in subquery mode. */
    method KeptParts(compilers: seq<SQLCompiler>, parts: seq<Query>) returns (r: Outcome<seq<Clause>>)
      requires |compilers| == |parts|
      requires forall i :: 0 <= i < |compilers| ==> compilers[i].query == parts[i] && compilers[i].captured == None
      modifies compilers
      ensures forall c :: c in compilers ==> c.subquery == old(c.subquery) && c.captured == None
      ensures r == PartClauses(parts)
      decreases parts, 1
    {
      var kept: seq<Clause> := [];
      assert parts[0..] == parts;
      NothingBefore(PartClauses(parts));
      for i := 0 to |parts|
        invariant forall c :: c in compilers ==> c.subquery == old(c.subquery) && c.captured == None
        invariant PartClauses(parts) == PartsAfter(kept, PartClauses(parts[i..]))
      {
        assert parts[i] in parts && compilers[i] in compilers;
        assert parts[i..][0] == parts[i] && parts[i..][1..] == parts[i + 1..];
        var s := compilers[i].InSubqueryMode();
        if s.Ok? {
          var part := PartClause(parts[i], s.value);
          PartsStep(kept, part, PartClauses(parts[i + 1..]));
          kept := kept + [part];
        } else if !s.EmptyResultSet? {
          return s.PropagateFailure();
        }
      }
      assert parts[|parts|..] == [];
      assert kept + [] == kept;
      r := Ok(kept);
    }

    method UnionSql() returns (r: Outcome<Clause>)
      requires query.Union? && captured == None
      modifies this`captured
      ensures captured == None
      ensures r == UnionClause(query)
      decreases query, 3
    {
      var terms :- CompileOrderBy(query.order);
      var compilers: seq<SQLCompiler> := [];
      for i := 0 to |query.parts|
        invariant |compilers| == i && this !in compilers && captured == None
        invariant forall j :: 0 <= j < i ==>
                    compilers[j].query == query.parts[j] && compilers[j].captured == None && fresh(compilers[j])
      {
        var compiler := new SQLCompiler(query.parts[i], false);
        compilers := compilers + [compiler];
      }
      var o := GetCombinatorSql(compilers, query.parts, query.all_, query.check);
      var body :- o;
      r := Ok(UnionBody(body, RewriteOrder([], false, terms), query.limit));
    }

    /** `SQLDeleteCompiler._as_sql`. */
    method DeleteSql(table: string, pk: string, where: Node) returns (r: Outcome<Named>)
      modifies this`captured
      ensures captured == old(captured)
      ensures r == FinishDelete(table, pk, where)
    {
      var o := CompileCapturing(where);
      if o.FullResultSet? {
        return FinishClause(Glue("DELETE FROM " + table + " RETURNING " + pk));
      }
      var w :- o;
      var c := Cat(Glue("DELETE FROM " + table + " WHERE "), Cat(w, Glue(" RETURNING " + pk)));
      var bounds :- Settled(ResolveTypedParams(c.types, c.params));
      r := NameAndBind(c.sql, bounds);
    }

    /** `SQLDeleteCompiler.as_sql` where the DELETE needs more than one table. */
    method DeleteThroughSubquerySql(table: string, pk: string, column: string, ty: FieldType, innerQuery: Query)
      returns (r: Outcome<Named>)
      modifies this`captured
      ensures captured == old(captured)
      ensures r == FinishDeleteThroughSubquery(table, pk, column, ty, innerQuery)
    {
      var inner := new SQLCompiler(innerQuery, false);
      inner.subquery := true;
      var s := inner.AsSql();
      match s
      case Ok(Positional(st)) => r := DeleteSql(table, pk, KeyInSubquery(column, ty, st));
      case EmptyResultSet => r := EmptyResultSet;
      case FullResultSet => r := FullResultSet;
      case _ => r := Raised;
    }

    /** `SQLUpdateCompiler.as_sql`. */
    method UpdateSql(table: string, pk: string, sets: seq<Assignment>, where: Node) returns (r: Outcome<Named>)
      modifies this`captured
      ensures captured == old(captured)
      ensures r == FinishUpdate(table, pk, sets, where)
    {
      var o := UpdateLists(table, pk, sets, where);
      var c :- o;
      var bounds :- Settled(ResolveTypedParams(c.types, c.params));
      r := NameAndBind(c.sql, bounds);
    }

    /** The text of an UPDATE; SET parameters and types come first, those of WHERE after them. */
    method UpdateLists(table: string, pk: string, sets: seq<Assignment>, where: Node) returns (r: Outcome<Clause>)
      modifies this`captured
      ensures captured == old(captured)
      ensures r == UpdateClause(table, pk, sets, where)
    {
      if sets == [] { return Ok(Glue("")); }
      var o := SetLists(sets);
      var list :- o;
      var condition := CompileCapturing(where);
      var head, tail := Glue("UPDATE " + table + " SET"), Glue("RETURNING " + pk);
      if condition.FullResultSet? {
        assert [head, list] + [] + [tail] == [head, list, tail];
        r := Ok(JoinClauses([head, list, tail], " "));
      } else {
        var w :- condition;
        assert [head, list] + [Cat(Glue("WHERE "), w)] + [tail] == [head, list, Cat(Glue("WHERE "), w), tail];
        r := Ok(JoinClauses([head, list, Cat(Glue("WHERE "), w), tail], " "));
      }
    }

    /** `values`, `update_params` and `set_types`, and the joined SET list they make up. */
    method SetLists(sets: seq<Assignment>) returns (r: Outcome<Clause>)
      modifies this`captured
      ensures captured == old(captured)
      ensures r == JoinedSets(SetClauses(sets))
    {
      var values, params, types := [], [], [];
      ghost var done: seq<Clause> := [];
      assert sets[0..] == sets;
      NothingBefore(SetClauses(sets));
      for i := 0 to |sets|
        invariant captured == old(captured)
        invariant Holds(values, params, types, done)
        invariant SetClauses(sets) == PartsAfter(done, SetClauses(sets[i..]))
      {
        assert sets[i..][0] == sets[i] && sets[i..][1..] == sets[i + 1..];
        var o := SetSql(sets[i]);
        var c :- o;
        PartsStep(done, c, SetClauses(sets[i + 1..]));
        ListsOfOne(c);
        HoldsMore(done, [c], [c.sql], c.params, c.types);
        values, params, types := values + [c.sql], params + c.params, types + c.types;
        done := done + [c];
      }
      assert sets[|sets|..] == [];
      Unit(done);
      JoinLists(done, ", ");
      r := Ok(Clause(Join(values, ", "), params, types));
    }

    method SetSql(a: Assignment) returns (r: Outcome<Clause>)
      modifies this`captured
      ensures captured == old(captured)
      ensures r == SetClause(a)
    {
      match a.value
      case ExprValue(node, coalesce) =>
        var o := CompileCapturing(node);
        var c :- o;
        if coalesce {
          c := Cat(Glue("COALESCE("), Cat(c, Glue(", " + a.column + ")")));
        }
        r := Ok(Cat(Glue(a.column + " = "), c));
      case PlainValue(v, ty) => r := Ok(Cat(Glue(a.column + " = "), Clause("%s", [Plain(v)], [ty])));
      case NullValue => r := Ok(Glue(a.column + " = NULL"));
    }

    /** `SQLAggregateCompiler.as_sql`; the inner query's flag is back on every exit. */
    method AggregateSql(annotations: seq<Node>, inner: SQLCompiler) returns (r: Outcome<Named>)
      requires inner != this && inner.captured == None
      modifies this`captured, inner
      ensures captured == old(captured)
      ensures inner.subquery == old(inner.subquery) && inner.captured == None
      ensures r == FinishAggregate(annotations, inner.query)
    {
      var clauses: seq<Clause> := [];
      assert annotations[0..] == annotations;
      NothingBefore(AnnotationClauses(annotations));
      for i := 0 to |annotations|
        invariant captured == old(captured) && inner.subquery == old(inner.subquery) && inner.captured == None
        invariant AnnotationClauses(annotations) == PartsAfter(clauses, AnnotationClauses(annotations[i..]))
      {
        assert annotations[i..][0] == annotations[i] && annotations[i..][1..] == annotations[i + 1..];
        var o := CompileCapturing(annotations[i]);
        var c :- o;
        PartsStep(clauses, c, AnnotationClauses(annotations[i + 1..]));
        clauses := clauses + [c];
      }
      assert annotations[|annotations|..] == [];
      assert clauses + [] == clauses;
      var s := inner.InSubqueryMode();
      var st :- s;
      var c := WrapperClause(clauses, Untyped(Frag(st.sql, TypedParams(st.bounds))));
      var bounds :- Settled(ResolveTypedParams(c.types, c.params));
      r := NameAndBind(c.sql, bounds);
    }
  }

  ghost function RunAfter(results: seq<Outcome<Frag>>, nested: seq<FieldType>, rest: Run): Run {
    Run(results + rest.results, nested + rest.captured, rest.stopped)
  }

  lemma RunBegins(run: Run)
    ensures run == RunAfter([], [], run)
  {
    Unit(run.results);
    Unit(run.captured);
  }

  lemma ChildIsSmaller(n: Node, i: nat)
    requires n.Expr? && i < |n.children|
    ensures n.children[i].node < n
  {
    assert n.children[i] < n;
  }

  lemma RunEnds(results: seq<Outcome<Frag>>, nested: seq<FieldType>)
    ensures RunAfter(results, nested, RunChildren([])) == Run(results, nested, false)
  {
    Unit(results);
    Unit(nested);
  }

  /** One child more: either it stops the run, or the run goes on after it. */
  lemma RunOn(cs: seq<Child>, i: nat, results: seq<Outcome<Frag>>, nested: seq<FieldType>)
    requires i < |cs|
    ensures var c := CompileNode(cs[i].node);
            RunAfter(results, nested, RunChildren(cs[i..])) ==
              if !c.outcome.Ok? && !Swallows(cs[i], c.outcome) then
                Run(results + [c.outcome], nested + c.captured, true)
              else RunAfter(results + [c.outcome], nested + c.captured, RunChildren(cs[i + 1..]))
  {
    var c := CompileNode(cs[i].node);
    assert cs[i..][0] == cs[i] && cs[i..][1..] == cs[i + 1..];
    RunStep(results, nested, c.outcome, c.captured, RunChildren(cs[i + 1..]));
  }

  lemma RunStep(results: seq<Outcome<Frag>>, nested: seq<FieldType>, o: Outcome<Frag>, more: seq<FieldType>, rest: Run)
    ensures RunAfter(results, nested, RunAfter([o], more, rest)) == RunAfter(results + [o], nested + more, rest)
    ensures RunAfter(results, nested, Run([o], more, true)) == Run(results + [o], nested + more, true)
  {
    assert results + ([o] + rest.results) == results + [o] + rest.results;
    assert nested + (more + rest.captured) == nested + more + rest.captured;
  }

  lemma GrownTwice(before: Option<seq<FieldType>>, nested: seq<FieldType>, more: seq<FieldType>)
    ensures before.Some? ==> before.value + nested + more == before.value + (nested + more)
  {
  }

  lemma NothingBefore<T>(o: Outcome<seq<T>>)
    ensures PartsAfter([], o) == o
  {
    if o.Ok? { assert [] + o.value == o.value; }
  }

  function JoinedSets(o: Outcome<seq<Clause>>): Outcome<Clause> {
    var cs :- o;
    Ok(JoinClauses(cs, ", "))
  }

  lemma PartsStep<T>(kept: seq<T>, part: T, rest: Outcome<seq<T>>)
    ensures PartsAfter(kept, PartsAfter([part], rest)) == PartsAfter(kept + [part], rest)
  {
    if rest.Ok? {
      assert kept + ([part] + rest.value) == kept + [part] + rest.value;
    }
  }

  /** The end of every statement: name the holes and fill the dictionary. */
  method NameAndBind(sql: string, bounds: seq<Bound>) returns (r: Outcome<Named>)
    ensures r == NameStatement(Statement(sql, bounds))
  {
    var named, rows := ReplacePlaceholders(sql);
    if |rows| > |bounds| { return Raised; }
    var binds := map[];
    for i := 0 to |rows|
      invariant binds == Bindings(rows[..i], bounds)
    {
      assert rows[..i + 1][..i] == rows[..i];
      binds := binds[rows[i] := bounds[i]];
    }
    assert rows[..|rows|] == rows;
    r := Ok(Named(named, binds));
  }

  // ---- The loops over compiled entries ----

  method ColumnLists(selected: seq<Selected>) returns (texts: seq<string>, params: seq<Param>, types: seq<FieldType>)
    ensures Holds(texts, params, types, ColumnClauses(selected))
  {
    texts, params, types := [], [], [];
    for i := 0 to |selected|
      invariant Holds(texts, params, types, ColumnClauses(selected[..i]))
    {
      var s := selected[i];
      var text := s.frag.sql;
      if s.alias != "" {
        text := text + (" AS " + QuoteName(s.alias));
      }
      assert selected[..i + 1] == selected[..i] + [s];
      ColumnClausesSnoc(selected[..i], s);
      ListsOfOne(ColumnClause(s));
      ListsConcat(ColumnClauses(selected[..i]), [ColumnClause(s)]);
      params := params + s.frag.params;
      types := types + Repeat(Unresolved, |s.frag.params|);
      texts := texts + [text];
    }
    assert selected[..|selected|] == selected;
  }

  method FragLists(fs: seq<Frag>) returns (texts: seq<string>, params: seq<Param>, types: seq<FieldType>)
    ensures Holds(texts, params, types, UntypedAll(fs))
  {
    texts, params, types := [], [], [];
    for i := 0 to |fs|
      invariant Holds(texts, params, types, UntypedAll(fs[..i]))
    {
      assert fs[..i + 1] == fs[..i] + [fs[i]];
      UntypedAllSnoc(fs[..i], fs[i]);
      ListsOfOne(Untyped(fs[i]));
      ListsConcat(UntypedAll(fs[..i]), [Untyped(fs[i])]);
      texts, params, types := texts + [fs[i].sql], params + fs[i].params, types + Repeat(Unresolved, |fs[i].params|);
    }
    assert fs[..|fs|] == fs;
  }

  method GroupLists(fs: seq<Frag>) returns (texts: seq<string>, params: seq<Param>, types: seq<FieldType>)
    ensures Holds(texts, params, types, KeptGroups(fs))
  {
    texts, params, types := [], [], [];
    for i := 0 to |fs|
      invariant Holds(texts, params, types, KeptGroups(fs[..i]))
    {
      assert fs[..i + 1] == fs[..i] + [fs[i]];
      KeptGroupsSnoc(fs[..i], fs[i]);
      if !IsConstantSql(fs[i].sql) {
        ListsOfOne(Untyped(fs[i]));
        ListsConcat(KeptGroups(fs[..i]), [Untyped(fs[i])]);
        texts, params, types := texts + [fs[i].sql], params + fs[i].params, types + Repeat(Unresolved, |fs[i].params|);
      } else {
        assert KeptGroups(fs[..i + 1]) == KeptGroups(fs[..i]);
      }
    }
    assert fs[..|fs|] == fs;
  }

  method OrderLists(fs: seq<Frag>) returns (texts: seq<string>, params: seq<Param>, types: seq<FieldType>)
    ensures Holds(texts, params, types, KeptOrders(fs))
  {
    texts, params, types := [], [], [];
    for i := 0 to |fs|
      invariant Holds(texts, params, types, KeptOrders(fs[..i]))
    {
      assert fs[..i + 1] == fs[..i] + [fs[i]];
      KeptOrdersSnoc(fs[..i], fs[i]);
      if !IsConstantSql(TermBase(fs[i].sql)) {
        ListsOfOne(Untyped(fs[i]));
        ListsConcat(KeptOrders(fs[..i]), [Untyped(fs[i])]);
        texts, params, types := texts + [fs[i].sql], params + fs[i].params, types + Repeat(Unresolved, |fs[i].params|);
      } else {
        assert KeptOrders(fs[..i + 1]) == KeptOrders(fs[..i]);
      }
    }
    assert fs[..|fs|] == fs;
  }

  method AddCondition(result: seq<string>, params: seq<Param>, types: seq<FieldType>, ghost parts: seq<Clause>,
                      head: string, c: Clause)
    returns (result': seq<string>, params': seq<Param>, types': seq<FieldType>)
    requires Holds(result, params, types, parts)
    ensures Holds(result', params', types', parts + Condition(head, c))
  {
    result', params', types' := result, params, types;
    if c.sql != "" {
      ListsOfOne(Cat(Glue(head), c));
      ListsConcat(parts, [Cat(Glue(head), c)]);
      result', params', types' := result + [head + c.sql], params + c.params, types + c.types;
      assert [] + c.params == c.params && [] + c.types == c.types;
    } else {
      assert parts + [] == parts;
    }
  }

  method AddText(result: seq<string>, params: seq<Param>, types: seq<FieldType>, ghost parts: seq<Clause>, text: string)
    returns (result': seq<string>, params': seq<Param>, types': seq<FieldType>)
    requires Holds(result, params, types, parts)
    ensures Holds(result', params', types', parts + Limited(text))
  {
    result', params', types' := result, params, types;
    if text != "" {
      ListsOfOne(Glue(text));
      ListsConcat(parts, [Glue(text)]);
      result' := result + [text];
    } else {
      assert parts + [] == parts;
    }
  }

  /** FROM with its tables; their parameters follow even where there is no table. */
  method AddSource(result: seq<string>, params: seq<Param>, types: seq<FieldType>, ghost parts: seq<Clause>,
                   texts: seq<string>, ps: seq<Param>, ts: seq<FieldType>, ghost cs: seq<Clause>)
    returns (result': seq<string>, params': seq<Param>, types': seq<FieldType>)
    requires Holds(result, params, types, parts) && Holds(texts, ps, ts, cs)
    ensures Holds(result', params', types', parts + if cs == [] then [] else [Glue("FROM")] + cs)
  {
    result' := result;
    if texts != [] {
      ListsOfOne(Glue("FROM"));
      ListsConcat([Glue("FROM")], cs);
      ListsConcat(parts, [Glue("FROM")] + cs);
      result' := result + (["FROM"] + texts);
    } else {
      assert cs == [] && parts + [] == parts;
    }
    params', types' := params + ps, types + ts;
  }

  method AddHeaded(result: seq<string>, params: seq<Param>, types: seq<FieldType>, ghost parts: seq<Clause>,
                   head: string, texts: seq<string>, ps: seq<Param>, ts: seq<FieldType>, ghost cs: seq<Clause>)
    returns (result': seq<string>, params': seq<Param>, types': seq<FieldType>)
    requires Holds(result, params, types, parts) && Holds(texts, ps, ts, cs)
    ensures Holds(result', params', types', parts + Headed(head, cs))
  {
    result', params', types' := result, params + ps, types + ts;
    if texts != [] {
      JoinLists(cs, ", ");
      var c := Clause(head + Join(texts, ", "), ps, ts);
      assert [] + ps == ps && [] + ts == ts;
      assert Headed(head, cs) == [c];
      ListsOfOne(c);
      ListsConcat(parts, [c]);
      result' := result + [head + Join(texts, ", ")];
    } else {
      assert cs == [] && parts + [] == parts;
      assert params + [] == params && types + [] == types;
    }
  }
}

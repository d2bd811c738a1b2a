/**
 * Expression and query trees, and what compiling them yields: text with `%s`
 * holes, parameters, and the field types that the capture buffer records.
 */
module QueryTree {
  import opened Options
  import opened Placeholders
  import opened ConstantTerms
  import opened Parameters
  import opened Fragments
  import opened OrderAliases

  /**
   * An expression. `as_sql` of an `Expr` compiles its children in order and
   * then raises or fills a template with them; `ty` is the type its own
   * parameters are given (`_direct_internal_type`).
   */
  datatype Node =
    | Expr(ty: FieldType, children: seq<Child>, body: Body)
    | RawSql(ty: FieldType, text: string, rawParams: seq<Param>)
    | Subquery(ty: FieldType, query: Query)

  /** A child, and which of the two exceptions of its compilation the parent swallows. */
  datatype Child = Child(node: Node, catchesEmpty: bool, catchesFull: bool)

  datatype Body = RaiseEmpty | RaiseFull | Template(items: seq<Item>)

  datatype Item = Text(s: string) | Own(v: PyValue) | Ref(child: nat)

  /** A selected column; `relabeled` is its form in the wrapper of a subquery. */
  datatype Column = Column(node: Node, alias: string, relabeled: Node)

  /**
   * How an ORDER BY term that Django compiled is compiled again: as the source
   * of its ordinal reference, or as a random order anchored on the key.
   */
  datatype Again = AsIs | Ordinal(source: Node) | Random(anchor: Node)

  datatype OrderTerm = OrderTerm(node: Node, again: Again, aggregate: bool)

  /**
   * Whether parts of a compound query may be sliced or ordered. If not, each is
   * asked for its ORDER BY, which goes over the select list of a compiler that
   * was not set up; `selectKnown` says whether that can be done.
   */
  datatype PartCheck = Unchecked | Checked(selectKnown: bool)

  datatype Query =
    | Select(distinct: bool, cols: seq<Column>, extra: seq<Column>, from_: seq<Node>, where: Option<Node>,
             group: seq<Node>, having: Option<Node>, order: seq<OrderTerm>, metaOrdering: bool, limit: string,
             elideEmpty: bool)
    | Union(parts: seq<Query>, all_: bool, order: seq<OrderTerm>, limit: string, check: PartCheck)

  /** A statement in subquery mode: `%s` holes and as many bound values. */
  datatype Statement = Statement(sql: string, bounds: seq<Bound>)

  // ---- Expressions ----

  /** The outcome of `compile`, and what it appended to the capture buffer. */
  datatype Compiled = Compiled(outcome: Outcome<Frag>, captured: seq<FieldType>)

  /** The children compiled so far; a run that is stopped ends in the exception that stopped it. */
  datatype Run = Run(results: seq<Outcome<Frag>>, captured: seq<FieldType>, stopped: bool)

  predicate Swallows(c: Child, o: Outcome<Frag>) {
    (o.EmptyResultSet? && c.catchesEmpty) || (o.FullResultSet? && c.catchesFull)
  }

  function RunChildren(cs: seq<Child>): (run: Run)
    ensures |run.results| <= |cs| && (!run.stopped ==> |run.results| == |cs|)
    ensures run.stopped ==> run.results != [] && !run.results[|run.results| - 1].Ok?
    decreases cs, 0
  {
    if cs == [] then Run([], [], false)
    else
      var head := cs[0];
      assert head.node < head;
      var c := CompileNode(head.node);
      if !c.outcome.Ok? && !Swallows(head, c.outcome) then Run([c.outcome], c.captured, true)
      else
        var rest := RunChildren(cs[1..]);
        Run([c.outcome] + rest.results, c.captured + rest.captured, rest.stopped)
  }

  function Expand(items: seq<Item>, results: seq<Outcome<Frag>>): Frag {
    if items == [] then Frag("", [])
    else
      var f, rest := ExpandItem(items[0], results), Expand(items[1..], results);
      Frag(f.sql + rest.sql, f.params + rest.params)
  }

  function ExpandItem(item: Item, results: seq<Outcome<Frag>>): Frag {
    match item
    case Text(s) => Frag(s, [])
    case Own(v) => Frag(HOLE, [Plain(v)])
    case Ref(i) => if i < |results| && results[i].Ok? then results[i].value else Frag("", [])
  }

  /** `compile` on top of `as_sql`: parameters no nested call accounts for get the node's type. */
  function Record(ty: FieldType, outcome: Outcome<Frag>, nested: seq<FieldType>): Compiled {
    if outcome.Ok? && |outcome.value.params| > |nested| then
      Compiled(outcome, nested + Repeat(ty, |outcome.value.params| - |nested|))
    else Compiled(outcome, nested)
  }

  function CompileNode(n: Node): Compiled
    decreases n, 1
  {
    match n
    case Expr(ty, children, body) =>
      var run := RunChildren(children);
      if run.stopped then Record(ty, run.results[|run.results| - 1], run.captured)
      else Record(ty, ExprSql(body, run.results), run.captured)
    case RawSql(ty, text, rawParams) =>
      Record(ty, Ok(Frag("(" + text + ")", rawParams)), [])
    case Subquery(ty, query) =>
      Record(ty, SubquerySql(CompileQuery(query, true)), [])
  }

  function ExprSql(body: Body, results: seq<Outcome<Frag>>): Outcome<Frag> {
    match body
    case RaiseEmpty => EmptyResultSet
    case RaiseFull => FullResultSet
    case Template(items) => Ok(Expand(items, results))
  }

  function SubquerySql(o: Outcome<Statement>): Outcome<Frag> {
    var st :- o;
    Ok(Frag("(" + st.sql + ")", TypedParams(st.bounds)))
  }

  function CompileAll(ns: seq<Node>): Outcome<seq<Frag>>
    decreases ns, 0
  {
    if ns == [] then Ok([])
    else
      var f :- CompileNode(ns[0]).outcome;
      var fs :- CompileAll(ns[1..]);
      Ok([f] + fs)
  }

  function CompileColumns(cols: seq<Column>): Outcome<seq<Selected>>
    decreases cols, 0
  {
    if cols == [] then Ok([])
    else
      var f :- CompileNode(cols[0].node).outcome;
      var fs :- CompileColumns(cols[1..]);
      Ok([Selected(f, cols[0].alias)] + fs)
  }

  datatype Ordered = Ordered(frag: Frag, aggregate: bool, random: bool)

  /** The terms as Django's own `get_order_by` compiles them. */
  function CompileTerms(terms: seq<OrderTerm>): (o: Outcome<seq<Frag>>)
    ensures o.Ok? ==> |o.value| == |terms|
    decreases terms, 0
  {
    if terms == [] then Ok([])
    else
      var head := terms[0];
      assert head.node < head;
      var f :- CompileNode(head.node).outcome;
      var fs :- CompileTerms(terms[1..]);
      Ok([f] + fs)
  }

  /** A random order; a constant one would be refused, so the key of the row is an argument. */
  function Anchored(anchor: Frag): Frag {
    Frag("Random(" + anchor.sql + ", CurrentUtcTimestamp())", anchor.params)
  }

  /** A term, given what its node compiles to. */
  function ShownTerm(t: OrderTerm, f: Frag): Ordered {
    Ordered(if t.again.Random? then Anchored(f) else f, t.aggregate, t.again.Random?)
  }

  /** The node whose compilation a term of ORDER BY shows. */
  function TermNode(t: OrderTerm): (n: Node)
    ensures n < t
  {
    assert t.node < t && t.again < t;
    match t.again
    case AsIs => t.node
    case Ordinal(source) => source
    case Random(anchor) => anchor
  }

  /** The terms of `get_order_by`, before the rewriting. */
  function ExpandTerms(terms: seq<OrderTerm>, fs: seq<Frag>): Outcome<seq<Ordered>>
    requires |fs| == |terms|
    decreases terms, 0
  {
    if terms == [] then Ok([])
    else
      var head := terms[0];
      var f :- if head.again.AsIs? then Ok(fs[0]) else CompileNode(TermNode(head)).outcome;
      var rest :- ExpandTerms(terms[1..], fs[1..]);
      Ok([ShownTerm(head, f)] + rest)
  }

  function CompileOrder(terms: seq<OrderTerm>): Outcome<seq<Ordered>>
    decreases terms, 1
  {
    var fs :- CompileTerms(terms);
    ExpandTerms(terms, fs)
  }

  lemma CompiledOrder(terms: seq<OrderTerm>)
    requires CompileOrder(terms).Ok? && terms != []
    ensures CompileNode(TermNode(terms[0])).outcome.Ok? && CompileOrder(terms[1..]).Ok?
    ensures var head := ShownTerm(terms[0], CompileNode(TermNode(terms[0])).outcome.value);
            CompileOrder(terms).value == [head] + CompileOrder(terms[1..]).value
  {
    var fs := CompileTerms(terms).value;
    assert fs[1..] == CompileTerms(terms[1..]).value;
  }

  // ---- The clauses of SELECT ----

  /** A condition with the types captured for it; "" when it is absent or always true. */
  function WhereClause(where: Option<Node>, elideEmpty: bool): Outcome<Clause>
    decreases where, 2
  {
    if where.None? then Ok(Glue(""))
    else
      var c := CompileNode(where.value);
      match c.outcome
      case Ok(f) => Ok(Clause(f.sql, f.params, c.captured))
      case EmptyResultSet => if elideEmpty then EmptyResultSet else Ok(Glue("0 = 1"))
      case FullResultSet => Ok(Glue(""))
      case Raised => Raised
  }

  function HavingClause(having: Option<Node>): Outcome<Clause>
    decreases having, 2
  {
    if having.None? then Ok(Glue(""))
    else
      var c := CompileNode(having.value);
      match c.outcome
      case Ok(f) => Ok(Clause(f.sql, f.params, c.captured))
      case FullResultSet => Ok(Glue(""))
      case EmptyResultSet => EmptyResultSet
      case Raised => Raised
  }

  function ColumnClause(s: Selected): Clause {
    if s.alias == "" then Untyped(s.frag)
    else Cat(Untyped(s.frag), Glue(" AS " + QuoteName(s.alias)))
  }

  function ColumnClauses(ss: seq<Selected>): (cs: seq<Clause>)
    ensures |cs| == |ss| && forall i :: 0 <= i < |ss| ==> cs[i] == ColumnClause(ss[i])
  {
    if ss == [] then [] else [ColumnClause(ss[0])] + ColumnClauses(ss[1..])
  }

  function UntypedAll(fs: seq<Frag>): (cs: seq<Clause>)
    ensures |cs| == |fs| && forall i :: 0 <= i < |fs| ==> cs[i] == Untyped(fs[i])
  {
    if fs == [] then [] else [Untyped(fs[0])] + UntypedAll(fs[1..])
  }

  /** GROUP BY terms, without the constant ones. */
  function KeptGroups(fs: seq<Frag>): seq<Clause> {
    if fs == [] then []
    else (if IsConstantSql(fs[0].sql) then [] else [Untyped(fs[0])]) + KeptGroups(fs[1..])
  }

  /** Under DISTINCT, and for aggregates, a term has to go by an alias where it can. */
  function RewriteOne(selected: seq<Selected>, distinct: bool, t: Ordered): Frag {
    RewriteTerm(selected, NeedsAlias(distinct, t), t.frag)
  }

  predicate NeedsAlias(distinct: bool, t: Ordered) {
    !t.random && (distinct || t.aggregate)
  }

  /** The terms `get_order_by` returns. */
  function RewriteOrder(selected: seq<Selected>, distinct: bool, terms: seq<Ordered>): seq<Frag> {
    if terms == [] then []
    else
      [RewriteOne(selected, distinct, terms[0])] + RewriteOrder(selected, distinct, terms[1..])
  }

  /** ORDER BY terms, without those whose base is constant. */
  function KeptOrders(fs: seq<Frag>): seq<Clause> {
    if fs == [] then []
    else (if IsConstantSql(TermBase(fs[0].sql)) then [] else [Untyped(fs[0])]) + KeptOrders(fs[1..])
  }

  function Headed(head: string, cs: seq<Clause>): seq<Clause> {
    if cs == [] then [] else [Cat(Glue(head), JoinClauses(cs, ", "))]
  }

  function Condition(head: string, c: Clause): seq<Clause> {
    if c.sql == "" then [] else [Cat(Glue(head), c)]
  }

  function Limited(limit: string): seq<Clause> {
    if limit == "" then [] else [Glue(limit)]
  }

  /** A column of the wrapper that hides extra selects from the enclosing query. */
  function CompileRelabeledColumn(col: Column): Outcome<Clause>
    decreases col, 2
  {
    if col.alias != "" then Ok(Glue("`subquery`." + QuoteName(col.alias)))
    else
      var f :- CompileNode(col.relabeled).outcome;
      Ok(Untyped(f))
  }

  function CompileRelabeled(cols: seq<Column>): Outcome<seq<Clause>>
    decreases cols, 0
  {
    if cols == [] then Ok([])
    else
      var c :- CompileRelabeledColumn(cols[0]);
      var cs :- CompileRelabeled(cols[1..]);
      Ok([c] + cs)
  }

  function WrapperClause(subSelects: seq<Clause>, body: Clause): Clause {
    Cat(Cat(Glue("SELECT "), Cat(JoinClauses(subSelects, ", "), Glue(" FROM ("))), Cat(body, Glue(") subquery")))
  }

  /** What the clauses of a SELECT compile to. */
  datatype Compilation = Compilation(cols: seq<Selected>, orders: seq<Ordered>, extra: seq<Selected>,
                                     groups: seq<Frag>, from_: seq<Frag>, where: Clause, having: Clause)

  function CompileClauses(q: Query): Outcome<Compilation>
    requires q.Select?
    decreases q, 1
  {
    var cols :- CompileColumns(q.cols);
    var orders :- CompileOrder(q.order);
    var extra :- CompileColumns(q.extra);
    var groups :- CompileAll(q.group);
    var from_ :- CompileAll(q.from_);
    var where :- WhereClause(q.where, q.elideEmpty);
    var having :- HavingClause(q.having);
    Ok(Compilation(cols, orders, extra, groups, from_, where, having))
  }

  /** SELECT, the columns, FROM and WHERE, to be joined by blanks. */
  function SelectFront(q: Query, c: Compilation): seq<Clause>
    requires q.Select?
  {
    [Glue("SELECT")]
    + (if q.distinct then [Glue("DISTINCT")] else [])
    + [JoinClauses(ColumnClauses(c.cols + c.extra), ", ")]
    + (if c.from_ == [] then [] else [Glue("FROM")] + UntypedAll(c.from_))
    + Condition("WHERE ", c.where)
  }

  /** GROUP BY, HAVING, ORDER BY and the limit. */
  function SelectTail(q: Query, c: Compilation, orders: seq<Frag>): seq<Clause>
    requires q.Select?
  {
    var grouping := KeptGroups(c.groups);
    Headed("GROUP BY ", grouping)
    + Condition("HAVING ", c.having)
    + (if grouping != [] && q.metaOrdering then [] else Headed("ORDER BY ", KeptOrders(orders)))
    + Limited(q.limit)
  }

  function SelectBody(q: Query, c: Compilation): Clause
    requires q.Select?
  {
    JoinClauses(SelectFront(q, c) + SelectTail(q, c, RewriteOrder(c.cols, q.distinct, c.orders)), " ")
  }

  function SelectClause(q: Query, subquery: bool): Outcome<Clause>
    requires q.Select?
    decreases q, 2
  {
    var c :- CompileClauses(q);
    if subquery && q.extra != [] then
      var subSelects :- CompileRelabeled(q.cols);
      Ok(WrapperClause(subSelects, SelectBody(q, c)))
    else Ok(SelectBody(q, c))
  }

  // ---- Compound queries ----

  /** A part in subquery mode; a compound part is wrapped. */
  function PartClause(part: Query, st: Statement): Clause {
    var c := Untyped(Frag(st.sql, TypedParams(st.bounds)));
    if part.Union? then Cat(Glue("SELECT * FROM ("), Cat(c, Glue(")"))) else c
  }

  /** The parts that are kept: a part that raises `EmptyResultSet` is omitted. */
  function PartClauses(parts: seq<Query>): Outcome<seq<Clause>>
    decreases parts, 0
  {
    if parts == [] then Ok([])
    else
      var o := CompileQuery(parts[0], true);
      if o.EmptyResultSet? then PartClauses(parts[1..])
      else
        var st :- o;
        var cs :- PartClauses(parts[1..]);
        Ok([PartClause(parts[0], st)] + cs)
  }

  function UnionOperator(all_: bool): string {
    if all_ then " UNION ALL " else " UNION "
  }

  predicate SlicedOrOrdered(part: Query) {
    part.limit != "" || part.order != []
  }

  /** Where parts must be neither sliced nor ordered, their ORDER BY is compiled to see. */
  function CheckParts(parts: seq<Query>, selectKnown: bool): Outcome<()>
    decreases parts, 0
  {
    if parts == [] then Ok(())
    else if parts[0].limit != "" then Raised
    else
      var fs :- CompileTerms(parts[0].order);
      if !selectKnown then Raised
      else
        var terms :- ExpandTerms(parts[0].order, fs);
        if terms != [] then Raised else CheckParts(parts[1..], selectKnown)
  }

  /** `get_combinator_sql`. */
  function CombinatorClause(parts: seq<Query>, all_: bool, check: PartCheck): Outcome<Clause>
    decreases parts, 1
  {
    var _ :- if check.Unchecked? then Ok(()) else CheckParts(parts, check.selectKnown);
    var cs :- PartClauses(parts);
    if cs == [] then EmptyResultSet else Ok(JoinClauses(cs, UnionOperator(all_)))
  }

  function UnionClause(q: Query): Outcome<Clause>
    requires q.Union?
    decreases q, 2
  {
    var orders :- CompileOrder(q.order);
    var body :- CombinatorClause(q.parts, q.all_, q.check);
    Ok(UnionBody(body, RewriteOrder([], false, orders), q.limit))
  }

  function UnionBody(body: Clause, orders: seq<Frag>, limit: string): Clause {
    JoinClauses([body] + Headed("ORDER BY ", KeptOrders(orders)) + Limited(limit), " ")
  }

  // ---- Whole statements ----

  /** All parameters bound, or the exception of the first that cannot be. */
  function Settled(bs: seq<Option<Bound>>): (o: Outcome<seq<Bound>>)
    ensures o.Ok? ==> Wrapped(o.value) == bs
    ensures o.Ok? || o.Raised?
  {
    if bs == [] then Ok([])
    else if bs[0].None? then Raised
    else
      var rest :- Settled(bs[1..]);
      assert Wrapped([bs[0].value] + rest) == [bs[0]] + Wrapped(rest);
      Ok([bs[0].value] + rest)
  }

  /** Nothing is raised exactly when every parameter is bound. */
  lemma {:induction false} SettledIff(bs: seq<Option<Bound>>)
    ensures Settled(bs).Ok? <==> forall i :: 0 <= i < |bs| ==> bs[i].Some?
  {
    if bs != [] {
      SettledIff(bs[1..]);
      assert forall i :: 0 <= i < |bs[1..]| ==> bs[1..][i] == bs[i + 1];
      assert (forall i :: 0 <= i < |bs| ==> bs[i].Some?) <==>
             bs[0].Some? && forall i :: 0 <= i < |bs[1..]| ==> bs[1..][i].Some? by {
        assert forall i :: 1 <= i < |bs| ==> bs[i] == bs[1..][i - 1];
      }
    }
  }

  function QueryClause(q: Query, subquery: bool): Outcome<Clause>
    decreases q, 3
  {
    if q.Select? then SelectClause(q, subquery) else UnionClause(q)
  }

  /** `as_sql` in subquery mode, and before the naming of the holes otherwise. */
  function CompileQuery(q: Query, subquery: bool): Outcome<Statement>
    decreases q, 4
  {
    var c :- QueryClause(q, subquery);
    var bounds :- Settled(Bounds(c));
    Ok(Statement(c.sql, bounds))
  }

  lemma CompiledUnion(q: Query)
    requires q.Union? && UnionClause(q).Ok?
    ensures CompileOrder(q.order).Ok? && PartClauses(q.parts).Ok?
    ensures UnionClause(q).value == UnionBody(JoinClauses(PartClauses(q.parts).value, UnionOperator(q.all_)),
                                              RewriteOrder([], false, CompileOrder(q.order).value), q.limit)
  {
    var body := CombinatorClause(q.parts, q.all_, q.check);
    assert body.Ok? && body.value == JoinClauses(PartClauses(q.parts).value, UnionOperator(q.all_));
  }

  lemma CompiledQuery(q: Query, subquery: bool)
    requires CompileQuery(q, subquery).Ok?
    ensures QueryClause(q, subquery).Ok?
    ensures var c, st := QueryClause(q, subquery).value, CompileQuery(q, subquery).value;
            Settled(Bounds(c)).Ok? && st == Statement(c.sql, Settled(Bounds(c)).value)
    ensures q.Select? ==> SelectClause(q, subquery).Ok? && CompileClauses(q).Ok?
    ensures q.Select? && subquery && q.extra != [] ==> CompileRelabeled(q.cols).Ok?
    ensures q.Union? ==> UnionClause(q).Ok? && CompileOrder(q.order).Ok? && PartClauses(q.parts).Ok?
  {
    if q.Union? { CompiledUnion(q); }
  }

  lemma CompiledClauses(q: Query)
    requires q.Select? && CompileClauses(q).Ok?
    ensures CompileColumns(q.cols).Ok? && CompileOrder(q.order).Ok? && CompileColumns(q.extra).Ok?
    ensures CompileAll(q.group).Ok? && CompileAll(q.from_).Ok?
    ensures WhereClause(q.where, q.elideEmpty).Ok? && HavingClause(q.having).Ok?
    ensures CompileClauses(q).value
         == Compilation(CompileColumns(q.cols).value, CompileOrder(q.order).value, CompileColumns(q.extra).value,
                        CompileAll(q.group).value, CompileAll(q.from_).value,
                        WhereClause(q.where, q.elideEmpty).value, HavingClause(q.having).value)
  {
  }

  /** A finished statement: named holes and a dictionary. */
  datatype Named = Named(sql: string, binds: map<string, Bound>)

  /** Naming the holes; a hole without a parameter is an `IndexError`. */
  function NameStatement(st: Statement): Outcome<Named> {
    if HoleCount(st.sql) > |st.bounds| then Raised
    else Ok(Named(NameHoles(st.sql, 1), Bindings(Names(1, HoleCount(st.sql)), st.bounds)))
  }

  function FinishClause(c: Clause): Outcome<Named> {
    var bounds :- Settled(Bounds(c));
    NameStatement(Statement(c.sql, bounds))
  }

  /** `as_sql` of the outermost query. */
  function TopLevel(q: Query): Outcome<Named> {
    var st :- CompileQuery(q, false);
    NameStatement(st)
  }
}

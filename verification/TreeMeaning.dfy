/**
 * The reference meaning of a tree: its text with every value in the place where
 * the tree has it, bound as the innermost query around it would bind it, read
 * off without holes, lists or buffers.
 */
module TreeMeaning {
  import opened Options
  import opened Placeholders
  import opened ConstantTerms
  import opened Parameters
  import opened Fragments
  import opened OrderAliases
  import opened QueryTree
  import opened CaptureAlignment
  import opened ClauseMeaning

  // ---- Trees whose own text holds no placeholder, and whose conditions are well behaved ----

  predicate GoodNode(n: Node)
    decreases n, 1
  {
    match n
    case Expr(_, children, body) =>
      && (forall i :: 0 <= i < |children| ==> GoodNode(ChildAt(n, i)))
      && (body.Template? ==> forall i :: 0 <= i < |body.items| && body.items[i].Text? ==> CleanText(body.items[i].s))
    case RawSql(_, text, rawParams) => HoleCount(text) == |rawParams| && !EndsOpen(text)
    case Subquery(_, query) => GoodQuery(query)
  }

  predicate GoodNodes(ns: seq<Node>)
    decreases ns, 2
  {
    ns == [] || (GoodNode(ns[0]) && GoodNodes(ns[1..]))
  }

  predicate GoodColumns(cols: seq<Column>)
    decreases cols, 2
  {
    cols == [] ||
    (GoodNode(cols[0].node) && GoodNode(cols[0].relabeled) && CleanText(cols[0].alias) && GoodColumns(cols[1..]))
  }

  /** The direction of a term holds no placeholder. */
  predicate GoodOrder(terms: seq<OrderTerm>)
    decreases terms, 2
  {
    terms == [] ||
    var n := TermNode(terms[0]);
    && GoodNode(n)
    && (CompileNode(n).outcome.Ok? ==>
          HoleCount(TermDirection(ShownTerm(terms[0], CompileNode(n).outcome.value).frag.sql)) == 0)
    && GoodOrder(terms[1..])
  }

  predicate GoodCondition(o: Option<Node>)
    decreases o, 2
  {
    o.Some? ==> GoodNode(o.value) && WellBehaved(o.value)
  }

  predicate GoodQueries(qs: seq<Query>)
    decreases qs, 2
  {
    qs == [] || (GoodQuery(qs[0]) && GoodQueries(qs[1..]))
  }

  predicate GoodQuery(q: Query)
    decreases q, 3
  {
    CleanText(q.limit) && GoodOrder(q.order) &&
    match q
    case Select(_, cols, extra, from_, where, group, having, _, _, _, _) =>
      GoodColumns(cols) && GoodColumns(extra) && GoodNodes(from_) && GoodCondition(where)
      && GoodNodes(group) && GoodCondition(having)
    case Union(parts, _, _, _, _) => GoodQueries(parts)
  }

  // ---- The reference meaning ----

  /** The pieces of an expression; `typed` says whether field types are known where it stands. */
  function NodePieces(n: Node, typed: bool): Pieces
    requires GoodNode(n) && CompileNode(n).outcome.Ok?
    decreases n, 1
  {
    match n
    case Expr(_, _, body) =>
      FilledRun(n);
      ItemsPieces(body.items, n, typed)
    case RawSql(ty, text, rawParams) =>
      var types := Repeat(if typed then ty else Unresolved, |rawParams|);
      Chars("(") + Fill(text, ResolveTypedParams(types, rawParams)) + Chars(")")
    case Subquery(_, query) => Chars("(") + QueryPieces(query, true) + Chars(")")
  }

  function ItemsPieces(items: seq<Item>, n: Node, typed: bool): Pieces
    requires n.Expr? && GoodNode(n)
    decreases n, 0, |items|
  {
    if items == [] then [] else ItemPieces(items[0], n, typed) + ItemsPieces(items[1..], n, typed)
  }

  function ItemPieces(item: Item, n: Node, typed: bool): Pieces
    requires n.Expr? && GoodNode(n)
    decreases n, 0, 0
  {
    match item
    case Text(s) => Chars(s)
    case Own(v) => [Par(ResolveOne(if typed then n.ty else Unresolved, v))]
    case Ref(i) =>
      if i < |n.children| && CompileNode(ChildAt(n, i)).outcome.Ok? then NodePieces(ChildAt(n, i), typed) else []
  }

  function NodesPieces(ns: seq<Node>): (ps: seq<Pieces>)
    requires GoodNodes(ns) && CompileAll(ns).Ok?
    decreases ns, 2
  {
    if ns == [] then [] else [NodePieces(ns[0], false)] + NodesPieces(ns[1..])
  }

  function ColumnsPieces(cols: seq<Column>): seq<Pieces>
    requires GoodColumns(cols) && CompileColumns(cols).Ok?
    decreases cols, 2
  {
    if cols == [] then []
    else
      var alias := cols[0].alias;
      [NodePieces(cols[0].node, false) + (if alias == "" then [] else Chars(" AS " + QuoteName(alias)))]
      + ColumnsPieces(cols[1..])
  }

  function RelabeledColumnPieces(col: Column): Pieces
    requires GoodNode(col.relabeled) && CompileRelabeledColumn(col).Ok?
    decreases col, 3
  {
    if col.alias != "" then Chars("`subquery`." + QuoteName(col.alias)) else NodePieces(col.relabeled, false)
  }

  function RelabeledPieces(cols: seq<Column>): seq<Pieces>
    requires GoodColumns(cols) && CompileRelabeled(cols).Ok?
    decreases cols, 2
  {
    if cols == [] then [] else [RelabeledColumnPieces(cols[0])] + RelabeledPieces(cols[1..])
  }

  function ConditionPieces(o: Option<Node>): Pieces
    requires GoodCondition(o)
    decreases o, 2
  {
    if o.None? then []
    else match CompileNode(o.value).outcome
      case Ok(_) => NodePieces(o.value, true)
      case EmptyResultSet => Chars("0 = 1")
      case _ => []
  }

  function GroupPieces(ns: seq<Node>): seq<Pieces>
    requires GoodNodes(ns) && CompileAll(ns).Ok?
    decreases ns, 2
  {
    if ns == [] then []
    else
      (if IsConstantSql(CompileNode(ns[0]).outcome.value.sql) then [] else [NodePieces(ns[0], false)])
      + GroupPieces(ns[1..])
  }

  /** An ORDER BY term: the alias of the column it repeats, or the term itself. */
  function OrderTermPieces(selected: seq<Selected>, distinct: bool, t: OrderTerm): seq<Pieces>
    requires GoodNode(TermNode(t)) && CompileNode(TermNode(t)).outcome.Ok?
    decreases t, 2
  {
    var shown := ShownTerm(t, CompileNode(TermNode(t)).outcome.value);
    var f, new_ := shown.frag, RewriteOne(selected, distinct, shown);
    if IsConstantSql(TermBase(new_.sql)) then []
    else if NeedsAlias(distinct, shown) && AliasFor(selected, TermBase(f.sql), f.params) >= 0 then [Chars(new_.sql)]
    else [TermPieces(t)]
  }

  /** A term by itself. */
  function TermPieces(t: OrderTerm): Pieces
    requires GoodNode(TermNode(t)) && CompileNode(TermNode(t)).outcome.Ok?
    decreases t, 1
  {
    var ps := NodePieces(TermNode(t), false);
    if t.again.Random? then Chars("Random(") + ps + Chars(", CurrentUtcTimestamp())") else ps
  }

  function OrderPieces(selected: seq<Selected>, distinct: bool, terms: seq<OrderTerm>): seq<Pieces>
    requires GoodOrder(terms) && CompileOrder(terms).Ok?
    decreases terms, 2
  {
    if terms == [] then []
    else
      CompiledOrder(terms);
      OrderTermPieces(selected, distinct, terms[0]) + OrderPieces(selected, distinct, terms[1..])
  }

  function SelectPieces(q: Query): seq<Pieces>
    requires q.Select? && GoodQuery(q) && CompileClauses(q).Ok?
    decreases q, 3
  {
    CompiledClauses(q);
    AssembleSelect(q, ColumnsPieces(q.cols) + ColumnsPieces(q.extra), NodesPieces(q.from_), ConditionPieces(q.where),
                   GroupPieces(q.group), ConditionPieces(q.having),
                   OrderPieces(CompileColumns(q.cols).value, q.distinct, q.order))
  }

  function PartsPieces(parts: seq<Query>): seq<Pieces>
    requires GoodQueries(parts) && PartClauses(parts).Ok?
    decreases parts, 2
  {
    if parts == [] then []
    else if CompileQuery(parts[0], true).EmptyResultSet? then PartsPieces(parts[1..])
    else
      var ps := QueryPieces(parts[0], true);
      [if parts[0].Union? then Chars("SELECT * FROM (") + ps + Chars(")") else ps] + PartsPieces(parts[1..])
  }

  function QueryPieces(q: Query, subquery: bool): Pieces
    requires GoodQuery(q) && CompileQuery(q, subquery).Ok?
    decreases q, 4
  {
    CompiledQuery(q, subquery);
    if q.Select? then
      var body := JoinPieces(SelectPieces(q), " ");
      if subquery && q.extra != [] then
        Chars("SELECT ") + JoinPieces(RelabeledPieces(q.cols), ", ") + Chars(" FROM (") + body + Chars(") subquery")
      else body
    else AssembleUnion(PartsPieces(q.parts), q.all_, OrderPieces([], false, q.order), q.limit)
  }
}

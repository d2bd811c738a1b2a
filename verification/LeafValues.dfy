/**
 * The leaves of a tree against the values its statement binds: every value that
 * was put into the tree is bound once, in the order of the tree, as the value it
 * is and as its innermost query types it.
 */
module LeafValues {
  import opened Options
  import opened Placeholders
  import opened ConstantTerms
  import opened Parameters
  import opened Fragments
  import opened OrderAliases
  import opened QueryTree
  import opened CaptureAlignment
  import opened ClauseMeaning
  import opened TreeMeaning
  import opened StatementMeaning
  import opened Lists

  /** A parameter of the tree, and what is known of its field where it stands. */
  datatype Leaf = Leaf(ty: FieldType, p: Param)

  /** Binding a leaf keeps its value and gives it the type of its field; only what nothing can bind is not bound. */
  predicate Holds(leaf: Leaf, o: Option<Bound>) {
    match leaf.p
    case Typed(bound) => o == Some(bound)
    case Plain(v) =>
      && (o.None? <==> Unbindable(leaf.ty, v))
      && (o.Some? ==> Keeps(!BindsAsIs(leaf.ty), leaf.ty, v, o.value.value) && Suits(leaf.ty, v, o.value.ydb))
  }

  // ---- The leaves of a tree ----

  function NodeLeaves(n: Node, typed: bool): seq<Leaf>
    requires GoodNode(n) && CompileNode(n).outcome.Ok?
    decreases n, 1
  {
    match n
    case Expr(_, _, body) =>
      FilledRun(n);
      ItemsLeaves(body.items, n, typed)
    case RawSql(ty, _, rawParams) => RawLeaves(if typed then ty else Unresolved, rawParams)
    case Subquery(_, query) => QueryLeaves(query, true)
  }

  function RawLeaves(ty: FieldType, ps: seq<Param>): seq<Leaf> {
    if ps == [] then [] else [Leaf(ty, ps[0])] + RawLeaves(ty, ps[1..])
  }

  function ItemsLeaves(items: seq<Item>, n: Node, typed: bool): seq<Leaf>
    requires n.Expr? && GoodNode(n)
    decreases n, 0, |items|
  {
    if items == [] then [] else ItemLeaves(items[0], n, typed) + ItemsLeaves(items[1..], n, typed)
  }

  function ItemLeaves(item: Item, n: Node, typed: bool): seq<Leaf>
    requires n.Expr? && GoodNode(n)
    decreases n, 0, 0
  {
    match item
    case Text(_) => []
    case Own(v) => [Leaf(if typed then n.ty else Unresolved, Plain(v))]
    case Ref(i) =>
      if i < |n.children| && CompileNode(ChildAt(n, i)).outcome.Ok? then NodeLeaves(ChildAt(n, i), typed) else []
  }

  function NodesLeaves(ns: seq<Node>): seq<Leaf>
    requires GoodNodes(ns) && CompileAll(ns).Ok?
    decreases ns, 2
  {
    if ns == [] then [] else NodeLeaves(ns[0], false) + NodesLeaves(ns[1..])
  }

  function ColumnsLeaves(cols: seq<Column>): seq<Leaf>
    requires GoodColumns(cols) && CompileColumns(cols).Ok?
    decreases cols, 2
  {
    if cols == [] then [] else NodeLeaves(cols[0].node, false) + ColumnsLeaves(cols[1..])
  }

  /** A column of the wrapper that goes by its alias has no leaves. */
  function RelabeledColumnLeaves(col: Column): seq<Leaf>
    requires GoodNode(col.relabeled) && CompileRelabeledColumn(col).Ok?
    decreases col, 3
  {
    if col.alias != "" then [] else NodeLeaves(col.relabeled, false)
  }

  function RelabeledLeaves(cols: seq<Column>): seq<Leaf>
    requires GoodColumns(cols) && CompileRelabeled(cols).Ok?
    decreases cols, 2
  {
    if cols == [] then []
    else RelabeledColumnLeaves(cols[0]) + RelabeledLeaves(cols[1..])
  }

  function ConditionLeaves(o: Option<Node>): seq<Leaf>
    requires GoodCondition(o)
    decreases o, 2
  {
    if o.None? || !CompileNode(o.value).outcome.Ok? then [] else NodeLeaves(o.value, true)
  }

  /** A constant term is dropped with its leaves. */
  function GroupLeaves(ns: seq<Node>): seq<Leaf>
    requires GoodNodes(ns) && CompileAll(ns).Ok?
    decreases ns, 2
  {
    if ns == [] then []
    else
      (if IsConstantSql(CompileNode(ns[0]).outcome.value.sql) then [] else NodeLeaves(ns[0], false))
      + GroupLeaves(ns[1..])
  }

  /** So is a constant term of ORDER BY; one that goes by an alias leaves them to the column. */
  function TermLeaves(selected: seq<Selected>, distinct: bool, t: OrderTerm): seq<Leaf>
    requires GoodNode(TermNode(t)) && CompileNode(TermNode(t)).outcome.Ok?
    decreases t, 2
  {
    var shown := ShownTerm(t, CompileNode(TermNode(t)).outcome.value);
    var f, new_ := shown.frag, RewriteOne(selected, distinct, shown);
    if IsConstantSql(TermBase(new_.sql)) then []
    else if NeedsAlias(distinct, shown) && AliasFor(selected, TermBase(f.sql), f.params) >= 0 then []
    else NodeLeaves(TermNode(t), false)
  }

  function OrderLeaves(selected: seq<Selected>, distinct: bool, terms: seq<OrderTerm>): seq<Leaf>
    requires GoodOrder(terms) && CompileOrder(terms).Ok?
    decreases terms, 2
  {
    if terms == [] then []
    else
      CompiledOrder(terms);
      TermLeaves(selected, distinct, terms[0]) + OrderLeaves(selected, distinct, terms[1..])
  }

  function SelectLeaves(q: Query): seq<Leaf>
    requires q.Select? && GoodQuery(q) && CompileClauses(q).Ok?
    decreases q, 3
  {
    CompiledClauses(q);
    ColumnsLeaves(q.cols) + ColumnsLeaves(q.extra) + NodesLeaves(q.from_) + ConditionLeaves(q.where)
    + GroupLeaves(q.group) + ConditionLeaves(q.having)
    + (if GroupPieces(q.group) != [] && q.metaOrdering then []
       else OrderLeaves(CompileColumns(q.cols).value, q.distinct, q.order))
  }

  function PartsLeaves(parts: seq<Query>): seq<Leaf>
    requires GoodQueries(parts) && PartClauses(parts).Ok?
    decreases parts, 2
  {
    if parts == [] then []
    else if CompileQuery(parts[0], true).EmptyResultSet? then PartsLeaves(parts[1..])
    else QueryLeaves(parts[0], true) + PartsLeaves(parts[1..])
  }

  function QueryLeaves(q: Query, subquery: bool): seq<Leaf>
    requires GoodQuery(q) && CompileQuery(q, subquery).Ok?
    decreases q, 4
  {
    CompiledQuery(q, subquery);
    if q.Select? then (if subquery && q.extra != [] then RelabeledLeaves(q.cols) else []) + SelectLeaves(q)
    else PartsLeaves(q.parts) + OrderLeaves([], false, q.order)
  }

  // ---- The parameters in pieces ----

  function Pars(ps: Pieces): seq<Option<Bound>> {
    if ps == [] then [] else (if ps[0].Par? then [ps[0].p] else []) + Pars(ps[1..])
  }

  function ParsAll(pss: seq<Pieces>): seq<Option<Bound>> {
    if pss == [] then [] else Pars(pss[0]) + ParsAll(pss[1..])
  }

  function LeafBindings(leaves: seq<Leaf>): (os: seq<Option<Bound>>)
    ensures |os| == |leaves| && forall i :: 0 <= i < |leaves| ==> os[i] == Resolve(leaves[i].ty, leaves[i].p)
  {
    seq(|leaves|, i requires 0 <= i < |leaves| => Resolve(leaves[i].ty, leaves[i].p))
  }

  lemma LeafBindingsConcat(a: seq<Leaf>, b: seq<Leaf>)
    ensures LeafBindings(a + b) == LeafBindings(a) + LeafBindings(b)
  {
  }

  lemma {:induction false} ParsConcat(a: Pieces, b: Pieces)
    ensures Pars(a + b) == Pars(a) + Pars(b)
  {
    if a == [] {
      Unit(b);
      Unit(Pars(b));
    } else {
      Cons(a, b);
      ParsConcat(a[1..], b);
      Assoc(if a[0].Par? then [a[0].p] else [], Pars(a[1..]), Pars(b));
    }
  }

  lemma {:induction false} ParsOfChars(s: string)
    ensures Pars(Chars(s)) == []
  {
    if s != "" {
      assert Chars(s)[1..] == Chars(s[1..]);
      ParsOfChars(s[1..]);
    }
  }

  lemma {:induction false} ParsAllConcat(a: seq<Pieces>, b: seq<Pieces>)
    ensures ParsAll(a + b) == ParsAll(a) + ParsAll(b)
  {
    if a == [] {
      Unit(b);
      Unit(ParsAll(b));
    } else {
      Cons(a, b);
      ParsAllConcat(a[1..], b);
      Assoc(Pars(a[0]), ParsAll(a[1..]), ParsAll(b));
    }
  }

  lemma ParsOne(ps: Pieces)
    ensures ParsAll([ps]) == Pars(ps)
  {
    assert [ps][1..] == [];
    Unit(Pars(ps));
  }

  lemma {:induction false} ParsJoined(pss: seq<Pieces>, sep: string)
    ensures Pars(JoinPieces(pss, sep)) == ParsAll(pss)
  {
    if |pss| == 1 {
      assert pss == [pss[0]];
      ParsOne(pss[0]);
    } else if pss != [] {
      ParsJoined(pss[1..], sep);
      ParsOfChars(sep);
      ParsConcat(pss[0], Chars(sep));
      ParsConcat(pss[0] + Chars(sep), JoinPieces(pss[1..], sep));
      Unit(Pars(pss[0]));
    }
  }

  lemma ParsSurrounded(before: string, ps: Pieces, after: string)
    ensures Pars(Chars(before) + ps + Chars(after)) == Pars(ps)
  {
    ParsOfChars(before);
    ParsOfChars(after);
    ParsConcat(Chars(before), ps);
    ParsConcat(Chars(before) + ps, Chars(after));
    Unit(Pars(ps));
  }

  lemma ParsPrefixed(before: string, ps: Pieces)
    ensures Pars(Chars(before) + ps) == Pars(ps)
  {
    ParsOfChars(before);
    ParsConcat(Chars(before), ps);
    Unit(Pars(ps));
  }

  lemma {:induction false} ParsOfFill(s: string, bs: seq<Option<Bound>>)
    requires HoleCount(s) == |bs|
    ensures Pars(Fill(s, bs)) == bs
  {
    if s == "" {
    } else if HoleAtStart(s) {
      ParsOfFill(s[2..], bs[1..]);
      assert Fill(s, bs)[1..] == Fill(s[2..], bs[1..]);
      assert [bs[0]] + bs[1..] == bs;
    } else {
      ParsOfFill(s[1..], bs);
      assert Fill(s, bs)[1..] == Fill(s[1..], bs);
      Unit(bs);
    }
  }

  // ---- The reference meaning binds the leaves in order ----

  lemma {:induction false} RawBindings(ty: FieldType, ps: seq<Param>)
    ensures LeafBindings(RawLeaves(ty, ps)) == ResolveTypedParams(Repeat(ty, |ps|), ps)
  {
    if ps != [] {
      RawBindings(ty, ps[1..]);
      LeafBindingsConcat([Leaf(ty, ps[0])], RawLeaves(ty, ps[1..]));
      assert ResolveTypedParams(Repeat(ty, |ps|), ps)
          == [Resolve(ty, ps[0])] + ResolveTypedParams(Repeat(ty, |ps[1..]|), ps[1..]);
    }
  }

  lemma {:induction false} NodeBindings(n: Node, typed: bool)
    requires GoodNode(n) && CompileNode(n).outcome.Ok?
    ensures Pars(NodePieces(n, typed)) == LeafBindings(NodeLeaves(n, typed))
    decreases n, 1
  {
    match n
    case Expr(_, _, body) =>
      FilledRun(n);
      ItemsBindings(body.items, n, typed);
    case RawSql(ty, text, rawParams) =>
      var own := if typed then ty else Unresolved;
      RawBindings(own, rawParams);
      ParsOfFill(text, ResolveTypedParams(Repeat(own, |rawParams|), rawParams));
      ParsSurrounded("(", Fill(text, ResolveTypedParams(Repeat(own, |rawParams|), rawParams)), ")");
    case Subquery(_, query) =>
      QueryBindings(query, true);
      ParsSurrounded("(", QueryPieces(query, true), ")");
  }

  lemma {:induction false} ItemsBindings(items: seq<Item>, n: Node, typed: bool)
    requires n.Expr? && GoodNode(n) && CompileNode(n).outcome.Ok?
    ensures Pars(ItemsPieces(items, n, typed)) == LeafBindings(ItemsLeaves(items, n, typed))
    decreases n, 0, |items|
  {
    if items != [] {
      ItemBindings(items[0], n, typed);
      ItemsBindings(items[1..], n, typed);
      ParsConcat(ItemPieces(items[0], n, typed), ItemsPieces(items[1..], n, typed));
      LeafBindingsConcat(ItemLeaves(items[0], n, typed), ItemsLeaves(items[1..], n, typed));
    }
  }

  lemma {:induction false} ItemBindings(item: Item, n: Node, typed: bool)
    requires n.Expr? && GoodNode(n) && CompileNode(n).outcome.Ok?
    ensures Pars(ItemPieces(item, n, typed)) == LeafBindings(ItemLeaves(item, n, typed))
    decreases n, 0, 0
  {
    match item
    case Text(s) => ParsOfChars(s);
    case Own(v) => OneBinding(if typed then n.ty else Unresolved, v);
    case Ref(i) =>
      if i < |n.children| && CompileNode(ChildAt(n, i)).outcome.Ok? {
        NodeBindings(ChildAt(n, i), typed);
      }
  }

  lemma OneBinding(ty: FieldType, v: PyValue)
    ensures Pars([Par(ResolveOne(ty, v))]) == LeafBindings([Leaf(ty, Plain(v))])
  {
    var ps := [Par(ResolveOne(ty, v))];
    assert ps[1..] == [];
  }

  lemma {:induction false} NodesBindings(ns: seq<Node>)
    requires GoodNodes(ns) && CompileAll(ns).Ok?
    ensures ParsAll(NodesPieces(ns)) == LeafBindings(NodesLeaves(ns))
    decreases ns, 2
  {
    if ns != [] {
      NodeBindings(ns[0], false);
      NodesBindings(ns[1..]);
      ConsBindings(NodePieces(ns[0], false), NodesPieces(ns[1..]), NodeLeaves(ns[0], false), NodesLeaves(ns[1..]));
    }
  }

  lemma ConsBindings(ps: Pieces, pss: seq<Pieces>, a: seq<Leaf>, b: seq<Leaf>)
    requires Pars(ps) == LeafBindings(a) && ParsAll(pss) == LeafBindings(b)
    ensures ParsAll([ps] + pss) == LeafBindings(a + b)
  {
    ParsOne(ps);
    ParsAllConcat([ps], pss);
    LeafBindingsConcat(a, b);
  }

  lemma {:induction false} ColumnsBindings(cols: seq<Column>)
    requires GoodColumns(cols) && CompileColumns(cols).Ok?
    ensures ParsAll(ColumnsPieces(cols)) == LeafBindings(ColumnsLeaves(cols))
    decreases cols, 2
  {
    if cols != [] {
      var alias, ps := cols[0].alias, NodePieces(cols[0].node, false);
      var suffix := if alias == "" then [] else Chars(" AS " + QuoteName(alias));
      NodeBindings(cols[0].node, false);
      ColumnsBindings(cols[1..]);
      ParsOfChars(" AS " + QuoteName(alias));
      ParsConcat(ps, suffix);
      Unit(Pars(ps));
      ConsBindings(ps + suffix, ColumnsPieces(cols[1..]), NodeLeaves(cols[0].node, false), ColumnsLeaves(cols[1..]));
    }
  }

  lemma {:induction false} RelabeledBindings(cols: seq<Column>)
    requires GoodColumns(cols) && CompileRelabeled(cols).Ok?
    ensures ParsAll(RelabeledPieces(cols)) == LeafBindings(RelabeledLeaves(cols))
    decreases cols, 2
  {
    if cols != [] {
      RelabeledBindings(cols[1..]);
      if cols[0].alias != "" {
        ParsOfChars("`subquery`." + QuoteName(cols[0].alias));
      } else {
        NodeBindings(cols[0].relabeled, false);
      }
      ConsBindings(RelabeledColumnPieces(cols[0]), RelabeledPieces(cols[1..]), RelabeledColumnLeaves(cols[0]),
                   RelabeledLeaves(cols[1..]));
    }
  }

  lemma ConditionBindings(o: Option<Node>)
    requires GoodCondition(o)
    ensures Pars(ConditionPieces(o)) == LeafBindings(ConditionLeaves(o))
    decreases o, 2
  {
    if o.Some? && CompileNode(o.value).outcome.Ok? {
      NodeBindings(o.value, true);
    } else {
      ParsOfChars("0 = 1");
    }
  }

  lemma {:induction false} GroupBindings(ns: seq<Node>)
    requires GoodNodes(ns) && CompileAll(ns).Ok?
    ensures ParsAll(GroupPieces(ns)) == LeafBindings(GroupLeaves(ns))
    decreases ns, 2
  {
    if ns != [] {
      GroupBindings(ns[1..]);
      if IsConstantSql(CompileNode(ns[0]).outcome.value.sql) {
        assert GroupPieces(ns) == GroupPieces(ns[1..]) && GroupLeaves(ns) == GroupLeaves(ns[1..]);
      } else {
        NodeBindings(ns[0], false);
        ConsBindings(NodePieces(ns[0], false), GroupPieces(ns[1..]), NodeLeaves(ns[0], false), GroupLeaves(ns[1..]));
      }
    }
  }

  lemma TermBindings(selected: seq<Selected>, distinct: bool, t: OrderTerm)
    requires GoodNode(TermNode(t)) && CompileNode(TermNode(t)).outcome.Ok?
    ensures ParsAll(OrderTermPieces(selected, distinct, t)) == LeafBindings(TermLeaves(selected, distinct, t))
    decreases t, 2
  {
    var shown := ShownTerm(t, CompileNode(TermNode(t)).outcome.value);
    var new_ := RewriteOne(selected, distinct, shown);
    NodeBindings(TermNode(t), false);
    ParsOfChars(new_.sql);
    ParsOne(Chars(new_.sql));
    ParsSurrounded("Random(", NodePieces(TermNode(t), false), ", CurrentUtcTimestamp())");
    ParsOne(TermPieces(t));
  }

  lemma {:induction false} OrderBindings(selected: seq<Selected>, distinct: bool, terms: seq<OrderTerm>)
    requires GoodOrder(terms) && CompileOrder(terms).Ok?
    ensures ParsAll(OrderPieces(selected, distinct, terms)) == LeafBindings(OrderLeaves(selected, distinct, terms))
    decreases terms, 2
  {
    if terms != [] {
      CompiledOrder(terms);
      TermBindings(selected, distinct, terms[0]);
      OrderBindings(selected, distinct, terms[1..]);
      ParsAllConcat(OrderTermPieces(selected, distinct, terms[0]), OrderPieces(selected, distinct, terms[1..]));
      LeafBindingsConcat(TermLeaves(selected, distinct, terms[0]), OrderLeaves(selected, distinct, terms[1..]));
    }
  }

  lemma HeadedPars(head: string, pss: seq<Pieces>)
    ensures ParsAll(HeadedPieces(head, pss)) == ParsAll(pss)
  {
    if pss != [] {
      ParsJoined(pss, ", ");
      ParsPrefixed(head, JoinPieces(pss, ", "));
      ParsOne(Chars(head) + JoinPieces(pss, ", "));
    }
  }

  lemma ConditionPars(head: string, ps: Pieces)
    ensures ParsAll(if ps == [] then [] else [Chars(head) + ps]) == Pars(ps)
  {
    if ps != [] {
      ParsPrefixed(head, ps);
      ParsOne(Chars(head) + ps);
    }
  }

  lemma TextPars(s: string)
    ensures ParsAll([Chars(s)]) == []
  {
    ParsOfChars(s);
    ParsOne(Chars(s));
  }

  /** SELECT, the columns, FROM and WHERE. */
  lemma FrontPars(distinct: bool, cols: seq<Pieces>, from_: seq<Pieces>, where: Pieces)
    ensures ParsAll([Chars("SELECT")] + (if distinct then [Chars("DISTINCT")] else []) + [JoinPieces(cols, ", ")]
                    + (if from_ == [] then [] else [Chars("FROM")] + from_)
                    + (if where == [] then [] else [Chars("WHERE ") + where]))
         == ParsAll(cols) + ParsAll(from_) + Pars(where)
  {
    var a, b := [Chars("SELECT")], if distinct then [Chars("DISTINCT")] else [];
    var c, d := [JoinPieces(cols, ", ")], if from_ == [] then [] else [Chars("FROM")] + from_;
    var e := if where == [] then [] else [Chars("WHERE ") + where];
    TextPars("SELECT");
    TextPars("DISTINCT");
    ParsJoined(cols, ", ");
    ParsOne(JoinPieces(cols, ", "));
    TextPars("FROM");
    ParsAllConcat([Chars("FROM")], from_);
    ConditionPars("WHERE ", where);
    ParsAllConcat(a, b);
    ParsAllConcat(a + b, c);
    ParsAllConcat(a + b + c, d);
    ParsAllConcat(a + b + c + d, e);
    NothingFirst(ParsAll(cols), ParsAll(from_));
  }

  lemma NothingFirst<T>(a: seq<T>, b: seq<T>)
    ensures [] + [] + a == a && [] + b == b
  {
  }

  /** GROUP BY, HAVING, ORDER BY and the limit. */
  lemma TailPars(groups: seq<Pieces>, having: Pieces, orders: seq<Pieces>, limit: string)
    ensures ParsAll(HeadedPieces("GROUP BY ", groups) + (if having == [] then [] else [Chars("HAVING ") + having])
                    + HeadedPieces("ORDER BY ", orders) + (if limit == "" then [] else [Chars(limit)]))
         == ParsAll(groups) + Pars(having) + ParsAll(orders)
  {
    var a, b := HeadedPieces("GROUP BY ", groups), if having == [] then [] else [Chars("HAVING ") + having];
    var c, d := HeadedPieces("ORDER BY ", orders), if limit == "" then [] else [Chars(limit)];
    HeadedPars("GROUP BY ", groups);
    ConditionPars("HAVING ", having);
    HeadedPars("ORDER BY ", orders);
    TextPars(limit);
    ParsAllConcat(a, b);
    ParsAllConcat(a + b, c);
    ParsAllConcat(a + b + c, d);
    Unit(ParsAll(groups) + Pars(having) + ParsAll(orders));
  }

  lemma AssembledPars(q: Query, cols: seq<Pieces>, from_: seq<Pieces>, where: Pieces, groups: seq<Pieces>,
                      having: Pieces, orders: seq<Pieces>)
    requires q.Select?
    ensures ParsAll(AssembleSelect(q, cols, from_, where, groups, having, orders))
         == (ParsAll(cols) + ParsAll(from_) + Pars(where))
            + (ParsAll(groups) + Pars(having) + (if groups != [] && q.metaOrdering then [] else ParsAll(orders)))
  {
    var shown := if groups != [] && q.metaOrdering then [] else orders;
    var front := [Chars("SELECT")] + (if q.distinct then [Chars("DISTINCT")] else []) + [JoinPieces(cols, ", ")]
                 + (if from_ == [] then [] else [Chars("FROM")] + from_)
                 + (if where == [] then [] else [Chars("WHERE ") + where]);
    var a, b := HeadedPieces("GROUP BY ", groups), if having == [] then [] else [Chars("HAVING ") + having];
    var c, d := HeadedPieces("ORDER BY ", shown), if q.limit == "" then [] else [Chars(q.limit)];
    FrontPars(q.distinct, cols, from_, where);
    TailPars(groups, having, shown, q.limit);
    ParsAllConcat(front, a + b + c + d);
    AssocTail(front, a, b, c, d);
  }

  lemma SelectBindings(q: Query)
    requires q.Select? && GoodQuery(q) && CompileClauses(q).Ok?
    ensures ParsAll(SelectPieces(q)) == LeafBindings(SelectLeaves(q))
    decreases q, 3
  {
    CompiledClauses(q);
    var selected := CompileColumns(q.cols).value;
    ColumnsBindings(q.cols);
    ColumnsBindings(q.extra);
    ParsAllConcat(ColumnsPieces(q.cols), ColumnsPieces(q.extra));
    NodesBindings(q.from_);
    ConditionBindings(q.where);
    GroupBindings(q.group);
    ConditionBindings(q.having);
    OrderBindings(selected, q.distinct, q.order);
    AssembledPars(q, ColumnsPieces(q.cols) + ColumnsPieces(q.extra), NodesPieces(q.from_), ConditionPieces(q.where),
                  GroupPieces(q.group), ConditionPieces(q.having), OrderPieces(selected, q.distinct, q.order));
    SevenBindings(ColumnsLeaves(q.cols), ColumnsLeaves(q.extra), NodesLeaves(q.from_), ConditionLeaves(q.where),
                  GroupLeaves(q.group), ConditionLeaves(q.having),
                  if GroupPieces(q.group) != [] && q.metaOrdering then []
                  else OrderLeaves(selected, q.distinct, q.order));
  }

  lemma SevenBindings(a: seq<Leaf>, b: seq<Leaf>, c: seq<Leaf>, d: seq<Leaf>, e: seq<Leaf>, f: seq<Leaf>, g: seq<Leaf>)
    ensures LeafBindings(a + b + c + d + e + f + g)
         == (LeafBindings(a) + LeafBindings(b) + LeafBindings(c) + LeafBindings(d))
            + (LeafBindings(e) + LeafBindings(f) + LeafBindings(g))
  {
    LeafBindingsConcat(a, b);
    LeafBindingsConcat(a + b, c);
    LeafBindingsConcat(a + b + c, d);
    LeafBindingsConcat(e, f);
    LeafBindingsConcat(e + f, g);
    LeafBindingsConcat(a + b + c + d, e + f + g);
    assert a + b + c + d + e + f + g == a + b + c + d + (e + f + g);
  }

  lemma {:induction false} PartsBindings(parts: seq<Query>)
    requires GoodQueries(parts) && PartClauses(parts).Ok?
    ensures ParsAll(PartsPieces(parts)) == LeafBindings(PartsLeaves(parts))
    decreases parts, 2
  {
    if parts != [] {
      PartsBindings(parts[1..]);
      if CompileQuery(parts[0], true).Ok? {
        var ps := QueryPieces(parts[0], true);
        QueryBindings(parts[0], true);
        ParsSurrounded("SELECT * FROM (", ps, ")");
        ConsBindings(if parts[0].Union? then Chars("SELECT * FROM (") + ps + Chars(")") else ps,
                     PartsPieces(parts[1..]), QueryLeaves(parts[0], true), PartsLeaves(parts[1..]));
      }
    }
  }

  lemma UnionPars(parts: seq<Pieces>, all_: bool, orders: seq<Pieces>, limit: string)
    ensures Pars(AssembleUnion(parts, all_, orders, limit)) == ParsAll(parts) + ParsAll(orders)
  {
    var body, a := JoinPieces(parts, UnionOperator(all_)), HeadedPieces("ORDER BY ", orders);
    var b := if limit == "" then [] else [Chars(limit)];
    ParsJoined(parts, UnionOperator(all_));
    ParsOne(body);
    HeadedPars("ORDER BY ", orders);
    TextPars(limit);
    ParsAllConcat([body], a);
    ParsAllConcat([body] + a, b);
    ParsJoined([body] + a + b, " ");
    Unit(ParsAll(parts) + ParsAll(orders));
  }

  lemma WrappedPars(cols: seq<Pieces>, body: Pieces)
    ensures Pars(Chars("SELECT ") + JoinPieces(cols, ", ") + Chars(" FROM (") + body + Chars(") subquery"))
         == ParsAll(cols) + Pars(body)
  {
    var head := Chars("SELECT ") + JoinPieces(cols, ", ") + Chars(" FROM (");
    ParsJoined(cols, ", ");
    ParsSurrounded("SELECT ", JoinPieces(cols, ", "), " FROM (");
    ParsOfChars(") subquery");
    ParsConcat(head, body);
    ParsConcat(head + body, Chars(") subquery"));
    Unit(ParsAll(cols) + Pars(body));
  }

  lemma {:induction false} QueryBindings(q: Query, subquery: bool)
    requires GoodQuery(q) && CompileQuery(q, subquery).Ok?
    ensures Pars(QueryPieces(q, subquery)) == LeafBindings(QueryLeaves(q, subquery))
    decreases q, 4
  {
    CompiledQuery(q, subquery);
    if q.Select? {
      SelectBindings(q);
      ParsJoined(SelectPieces(q), " ");
      if subquery && q.extra != [] {
        RelabeledBindings(q.cols);
        WrappedPars(RelabeledPieces(q.cols), JoinPieces(SelectPieces(q), " "));
        LeafBindingsConcat(RelabeledLeaves(q.cols), SelectLeaves(q));
      } else {
        Unit(SelectLeaves(q));
      }
    } else {
      PartsBindings(q.parts);
      OrderBindings([], false, q.order);
      UnionPars(PartsPieces(q.parts), q.all_, OrderPieces([], false, q.order), q.limit);
      LeafBindingsConcat(PartsLeaves(q.parts), OrderLeaves([], false, q.order));
    }
  }

  // ---- The statement binds the leaves ----

  lemma LeafHolds(leaf: Leaf)
    ensures Holds(leaf, Resolve(leaf.ty, leaf.p))
  {
    if leaf.p.Plain? {
      var o := ResolveOne(leaf.ty, leaf.p.v);
      BindingKeepsValue(leaf.ty, leaf.p.v);
      if o.Some? { BindingHasFieldType(leaf.ty, leaf.p.v); }
    }
  }

  /**
   * A compiled query binds as many values as its tree has leaves, at any nesting
   * depth, and the k-th value is the k-th leaf's own, or the integer that is
   * read back as it.
   */
  lemma LeavesAreBound(q: Query, subquery: bool)
    requires GoodQuery(q) && CompileQuery(q, subquery).Ok?
    ensures var bounds, leaves := CompileQuery(q, subquery).value.bounds, QueryLeaves(q, subquery);
            && |bounds| == |leaves|
            && forall k :: 0 <= k < |leaves| ==> Holds(leaves[k], Some(bounds[k]))
  {
    var st, leaves := CompileQuery(q, subquery).value, QueryLeaves(q, subquery);
    QueryMeaning(q, subquery);
    QueryBindings(q, subquery);
    ParsOfFill(st.sql, Wrapped(st.bounds));
    forall k | 0 <= k < |leaves|
      ensures Holds(leaves[k], Wrapped(st.bounds)[k])
    {
      LeafHolds(leaves[k]);
    }
  }

  /** The names of the holes, in order, stand for the leaves. */
  predicate NamesHold(binds: map<string, Bound>, leaves: seq<Leaf>) {
    forall k :: 0 <= k < |leaves| ==> NameHolds(binds, k, leaves[k])
  }

  predicate NameHolds(binds: map<string, Bound>, k: nat, leaf: Leaf) {
    Name(1 + k) in binds && Holds(leaf, Some(binds[Name(1 + k)]))
  }

  /** So does the dictionary of the finished statement. */
  lemma DictionaryHoldsLeaves(q: Query)
    requires GoodQuery(q) && CompileQuery(q, false).Ok?
    ensures TopLevel(q).Ok? && NamesHold(TopLevel(q).value.binds, QueryLeaves(q, false))
  {
    LeavesAreBound(q, false);
    QueryMeaning(q, false);
    var st := CompileQuery(q, false).value;
    NamedLeaves(st, QueryLeaves(q, false));
    assert TopLevel(q) == NameStatement(st);
  }

  lemma NamedLeaves(st: Statement, leaves: seq<Leaf>)
    requires HoleCount(st.sql) == |st.bounds| == |leaves|
    requires forall k :: 0 <= k < |leaves| ==> Holds(leaves[k], Some(st.bounds[k]))
    ensures NameStatement(st).Ok? && NamesHold(NameStatement(st).value.binds, leaves)
  {
    var names := Names(1, HoleCount(st.sql));
    var binds := NameStatement(st).value.binds;
    forall k | 0 <= k < |leaves|
      ensures NameHolds(binds, k, leaves[k])
    {
      BindingsAt(names, st.bounds, k);
      assert names[k] == Name(1 + k);
    }
  }
}

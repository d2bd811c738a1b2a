/** When compiling raises, and what: no query is lost, and no exception is made up or swallowed on the way. */
module Outcomes {
  import opened Options
  import opened Parameters
  import opened Fragments
  import opened OrderAliases
  import opened QueryTree
  import opened CaptureAlignment
  import opened UnionRows
  import opened WriteStatements
  import opened Lists

  // ---- Expressions ----

  /** The child compiles, or its parent swallows what it raises. */
  predicate Survives(c: Child) {
    match CompileNode(c.node).outcome
    case Ok(_) => true
    case EmptyResultSet => c.catchesEmpty
    case FullResultSet => c.catchesFull
    case Raised => false
  }

  lemma RunHead(cs: seq<Child>)
    requires cs != []
    ensures var run, rest := RunChildren(cs), RunChildren(cs[1..]);
            if Survives(cs[0]) then
              && run.stopped == rest.stopped
              && (run.stopped ==> run.results[|run.results| - 1] == rest.results[|rest.results| - 1])
            else run == Run([CompileNode(cs[0].node).outcome], CompileNode(cs[0].node).captured, true)
  {
  }

  lemma {:induction false} RunSurvives(cs: seq<Child>)
    requires forall i :: 0 <= i < |cs| ==> Survives(cs[i])
    ensures !RunChildren(cs).stopped
  {
    if cs != [] {
      RunHead(cs);
      assert forall i :: 0 <= i < |cs[1..]| ==> cs[1..][i] == cs[i + 1];
      RunSurvives(cs[1..]);
    }
  }

  lemma {:induction false} RunStops(cs: seq<Child>, i: nat)
    requires i < |cs| && !Survives(cs[i]) && forall j :: 0 <= j < i ==> Survives(cs[j])
    ensures var run := RunChildren(cs);
            run.stopped && run.results[|run.results| - 1] == CompileNode(cs[i].node).outcome
  {
    RunHead(cs);
    if i > 0 {
      assert cs[1..][i - 1] == cs[i] && forall j :: 0 <= j < i - 1 ==> cs[1..][j] == cs[j + 1];
      RunStops(cs[1..], i - 1);
    }
  }

  /** An expression raises what its first child raises that it does not swallow. */
  lemma ExprStops(n: Node, i: nat)
    requires n.Expr? && i < |n.children| && !Survives(n.children[i])
    requires forall j :: 0 <= j < i ==> Survives(n.children[j])
    ensures CompileNode(n).outcome == CompileNode(n.children[i].node).outcome
  {
    RunStops(n.children, i);
  }

  /** Without such a child it raises by itself or yields its template. */
  lemma ExprOutcome(n: Node)
    requires n.Expr? && forall i :: 0 <= i < |n.children| ==> Survives(n.children[i])
    ensures match n.body
            case RaiseEmpty => CompileNode(n).outcome == EmptyResultSet
            case RaiseFull => CompileNode(n).outcome == FullResultSet
            case Template(_) => CompileNode(n).outcome.Ok?
  {
    RunSurvives(n.children);
  }

  /** Raw SQL always compiles, and a subquery raises what its query raises. */
  lemma LeafOutcome(n: Node)
    requires !n.Expr?
    ensures n.RawSql? ==> CompileNode(n).outcome == Ok(Frag("(" + n.text + ")", n.rawParams))
    ensures n.Subquery? ==>
              match CompileQuery(n.query, true)
              case Ok(st) => CompileNode(n).outcome == Ok(Frag("(" + st.sql + ")", TypedParams(st.bounds)))
              case EmptyResultSet => CompileNode(n).outcome == EmptyResultSet
              case FullResultSet => CompileNode(n).outcome == FullResultSet
              case Raised => CompileNode(n).outcome == Raised
  {
  }

  // ---- Lists of expressions ----

  predicate Compiles(n: Node) {
    CompileNode(n).outcome.Ok?
  }

  lemma {:induction false} AllCompileIff(ns: seq<Node>)
    ensures CompileAll(ns).Ok? <==> forall i :: 0 <= i < |ns| ==> Compiles(ns[i])
  {
    if ns != [] {
      AllCompileIff(ns[1..]);
      Split(|ns|, i => 0 <= i < |ns| ==> Compiles(ns[i]), i => 0 <= i < |ns| - 1 ==> Compiles(ns[1..][i]));
    }
  }

  /** What holds of all of a list, by its head and its tail. */
  lemma Split(n: nat, p: int -> bool, q: int -> bool)
    requires n > 0 && forall i :: 0 <= i < n - 1 ==> q(i) == p(i + 1)
    ensures (forall i :: 0 <= i < n ==> p(i)) <==> p(0) && forall i :: 0 <= i < n - 1 ==> q(i)
  {
    if p(0) && forall i :: 0 <= i < n - 1 ==> q(i) {
      forall i | 0 <= i < n
        ensures p(i)
      {
        if i > 0 { assert q(i - 1); }
      }
    }
  }

  lemma {:induction false} ColumnsCompileIff(cols: seq<Column>)
    ensures CompileColumns(cols).Ok? <==> forall i :: 0 <= i < |cols| ==> Compiles(cols[i].node)
  {
    if cols != [] {
      ColumnsCompileIff(cols[1..]);
      Split(|cols|, i => 0 <= i < |cols| ==> Compiles(cols[i].node),
            i => 0 <= i < |cols| - 1 ==> Compiles(cols[1..][i].node));
    }
  }

  /** A column of the wrapper that has an alias needs no rendering. */
  lemma {:induction false} RelabeledCompileIff(cols: seq<Column>)
    ensures CompileRelabeled(cols).Ok? <==>
              forall i :: 0 <= i < |cols| ==> cols[i].alias != "" || Compiles(cols[i].relabeled)
  {
    if cols != [] {
      RelabeledCompileIff(cols[1..]);
      Split(|cols|, i => 0 <= i < |cols| ==> cols[i].alias != "" || Compiles(cols[i].relabeled),
            i => 0 <= i < |cols| - 1 ==> cols[1..][i].alias != "" || Compiles(cols[1..][i].relabeled));
    }
  }

  /** A term has to compile as Django has it, and once more as it is shown. */
  predicate TermCompiles(t: OrderTerm) {
    Compiles(t.node)
    && match t.again
       case AsIs => true
       case Ordinal(source) => Compiles(source)
       case Random(anchor) => Compiles(anchor)
  }

  lemma {:induction false} TermsCompileIff(terms: seq<OrderTerm>)
    ensures CompileTerms(terms).Ok? <==> forall i :: 0 <= i < |terms| ==> Compiles(terms[i].node)
    ensures CompileTerms(terms).Ok? ==>
              forall i :: 0 <= i < |terms| ==> CompileNode(terms[i].node).outcome == Ok(CompileTerms(terms).value[i])
  {
    if terms != [] {
      TermsCompileIff(terms[1..]);
      Split(|terms|, i => 0 <= i < |terms| ==> Compiles(terms[i].node),
            i => 0 <= i < |terms| - 1 ==> Compiles(terms[1..][i].node));
      if CompileTerms(terms).Ok? {
        assert CompileTerms(terms).value[1..] == CompileTerms(terms[1..]).value;
      }
    }
  }

  lemma {:induction false} ExpandedIff(terms: seq<OrderTerm>, fs: seq<Frag>)
    requires |fs| == |terms|
    ensures ExpandTerms(terms, fs).Ok? <==>
              forall i :: 0 <= i < |terms| ==> terms[i].again.AsIs? || Compiles(TermNode(terms[i]))
  {
    if terms != [] {
      ExpandedIff(terms[1..], fs[1..]);
      Split(|terms|, i => 0 <= i < |terms| ==> terms[i].again.AsIs? || Compiles(TermNode(terms[i])),
            i => 0 <= i < |terms| - 1 ==> terms[1..][i].again.AsIs? || Compiles(TermNode(terms[1..][i])));
    }
  }

  lemma OrderCompilesIff(terms: seq<OrderTerm>)
    ensures CompileOrder(terms).Ok? <==> forall i :: 0 <= i < |terms| ==> TermCompiles(terms[i])
  {
    TermsCompileIff(terms);
    if CompileTerms(terms).Ok? {
      ExpandedIff(terms, CompileTerms(terms).value);
    }
  }

  // ---- SELECT ----

  /** A condition compiles, or always holds; one that never holds is a text only where it must not be elided. */
  predicate ConditionCompiles(o: Option<Node>, rendersEmpty: bool) {
    o.None?
    || match CompileNode(o.value).outcome
       case Ok(_) => true
       case FullResultSet => true
       case EmptyResultSet => rendersEmpty
       case Raised => false
  }

  predicate ClausesCompile(q: Query)
    requires q.Select?
  {
    && (forall i :: 0 <= i < |q.cols| ==> Compiles(q.cols[i].node))
    && (forall i :: 0 <= i < |q.order| ==> TermCompiles(q.order[i]))
    && (forall i :: 0 <= i < |q.extra| ==> Compiles(q.extra[i].node))
    && (forall i :: 0 <= i < |q.group| ==> Compiles(q.group[i]))
    && (forall i :: 0 <= i < |q.from_| ==> Compiles(q.from_[i]))
    && ConditionCompiles(q.where, !q.elideEmpty) && ConditionCompiles(q.having, false)
  }

  lemma ClausesCompileIff(q: Query)
    requires q.Select?
    ensures CompileClauses(q).Ok? <==> ClausesCompile(q)
  {
    ColumnsCompileIff(q.cols);
    OrderCompilesIff(q.order);
    ColumnsCompileIff(q.extra);
    AllCompileIff(q.group);
    AllCompileIff(q.from_);
  }

  /** A query compiles exactly when its clauses do, and every value can be bound. */
  lemma BoundIff(q: Query, subquery: bool)
    ensures CompileQuery(q, subquery).Ok? <==>
              QueryClause(q, subquery).Ok?
              && forall b :: b in Bounds(QueryClause(q, subquery).value) ==> b.Some?
  {
    if QueryClause(q, subquery).Ok? {
      SettledIff(Bounds(QueryClause(q, subquery).value));
    }
  }

  predicate WrapperCompiles(cols: seq<Column>) {
    forall i :: 0 <= i < |cols| ==> cols[i].alias != "" || Compiles(cols[i].relabeled)
  }

  /** The clauses of a SELECT compile exactly when each does, and its wrapper too if it needs one. */
  lemma SelectCompilesIff(q: Query, subquery: bool)
    requires q.Select?
    ensures QueryClause(q, subquery).Ok? <==>
              ClausesCompile(q) && (subquery && q.extra != [] ==> WrapperCompiles(q.cols))
  {
    ClausesCompileIff(q);
    RelabeledCompileIff(q.cols);
    assert QueryClause(q, subquery) == SelectClause(q, subquery);
  }

  /** A condition that always holds compiles as if it was not there. */
  lemma AlwaysTrueIsOmitted(q: Query, subquery: bool)
    requires q.Select?
    ensures q.where.Some? && CompileNode(q.where.value).outcome.FullResultSet? ==>
              CompileQuery(q, subquery) == CompileQuery(q.(where := None), subquery)
    ensures q.having.Some? && CompileNode(q.having.value).outcome.FullResultSet? ==>
              CompileQuery(q, subquery) == CompileQuery(q.(having := None), subquery)
  {
    if q.where.Some? && CompileNode(q.where.value).outcome.FullResultSet? {
      SameClauses(q, q.(where := None), subquery);
    }
    if q.having.Some? && CompileNode(q.having.value).outcome.FullResultSet? {
      SameClauses(q, q.(having := None), subquery);
    }
  }

  lemma SameCompilation(q: Query, p: Query)
    requires q.Select? && p.Select? && p == q.(where := p.where, having := p.having)
    requires WhereClause(q.where, q.elideEmpty) == WhereClause(p.where, p.elideEmpty)
    requires HavingClause(q.having) == HavingClause(p.having)
    ensures CompileClauses(q) == CompileClauses(p)
  {
  }

  lemma SameSelect(q: Query, p: Query, subquery: bool)
    requires q.Select? && p.Select? && p == q.(where := p.where, having := p.having)
    requires CompileClauses(q) == CompileClauses(p)
    ensures SelectClause(q, subquery) == SelectClause(p, subquery)
  {
    if CompileClauses(q).Ok? {
      SameBody(q, p, CompileClauses(q).value);
    }
  }

  lemma SameClauses(q: Query, p: Query, subquery: bool)
    requires q.Select? && p.Select? && p == q.(where := p.where, having := p.having)
    requires WhereClause(q.where, q.elideEmpty) == WhereClause(p.where, p.elideEmpty)
    requires HavingClause(q.having) == HavingClause(p.having)
    ensures CompileQuery(q, subquery) == CompileQuery(p, subquery)
  {
    SameCompilation(q, p);
    SameSelect(q, p, subquery);
    assert QueryClause(q, subquery) == QueryClause(p, subquery);
  }

  lemma SameBody(q: Query, p: Query, c: Compilation)
    requires q.Select? && p.Select? && p == q.(where := p.where, having := p.having)
    ensures SelectBody(q, c) == SelectBody(p, c)
  {
    assert SelectFront(q, c) == SelectFront(p, c);
  }

  /** Nothing before WHERE raises. */
  predicate ReachesWhere(q: Query)
    requires q.Select?
  {
    CompileColumns(q.cols).Ok? && CompileOrder(q.order).Ok? && CompileColumns(q.extra).Ok?
    && CompileAll(q.group).Ok? && CompileAll(q.from_).Ok?
  }

  /** Then a query whose WHERE can never hold is empty, where it may be elided. */
  lemma NeverTrueWhere(q: Query, subquery: bool)
    requires q.Select? && ReachesWhere(q) && q.elideEmpty
    requires q.where.Some? && CompileNode(q.where.value).outcome.EmptyResultSet?
    ensures CompileQuery(q, subquery) == EmptyResultSet
  {
    assert CompileClauses(q) == EmptyResultSet;
    assert SelectClause(q, subquery) == EmptyResultSet;
  }

  /** So is one whose HAVING can never hold. */
  lemma NeverTrueHaving(q: Query, subquery: bool)
    requires q.Select? && ReachesWhere(q) && ConditionCompiles(q.where, !q.elideEmpty)
    requires q.having.Some? && CompileNode(q.having.value).outcome.EmptyResultSet?
    ensures CompileQuery(q, subquery) == EmptyResultSet
  {
    assert WhereClause(q.where, q.elideEmpty).Ok?;
    assert CompileClauses(q) == EmptyResultSet;
    assert SelectClause(q, subquery) == EmptyResultSet;
  }

  /** Where it must not be elided, the condition `0 = 1` takes its place. */
  lemma NeverTrueIsRendered(q: Query, subquery: bool)
    requires q.Select? && !q.elideEmpty
    requires q.where.Some? && CompileNode(q.where.value).outcome.EmptyResultSet?
    ensures CompileQuery(q, subquery) == CompileQuery(q.(where := Some(Never())), subquery)
  {
    NeverCompiles();
    SameClauses(q, q.(where := Some(Never())), subquery);
  }

  /** The condition `0 = 1`. */
  function Never(): Node {
    Expr(Unresolved, [], Template([Text("0 = 1")]))
  }

  lemma NeverCompiles()
    ensures CompileNode(Never()) == Compiled(Ok(Frag("0 = 1", [])), [])
  {
    var items := [Text("0 = 1")];
    assert items[1..] == [];
    assert Expand(items[1..], []) == Frag("", []);
    Unit("0 = 1");
    assert Expand(items, []) == Frag("0 = 1", []);
  }

  // ---- Compound queries ----

  predicate PartSurvives(part: Query) {
    CompileQuery(part, true).Ok? || CompileQuery(part, true).EmptyResultSet?
  }

  lemma {:induction false} PartsCompileIff(parts: seq<Query>)
    ensures PartClauses(parts).Ok? <==> forall i :: 0 <= i < |parts| ==> PartSurvives(parts[i])
  {
    if parts != [] {
      PartsCompileIff(parts[1..]);
      Split(|parts|, i => 0 <= i < |parts| ==> PartSurvives(parts[i]),
            i => 0 <= i < |parts| - 1 ==> PartSurvives(parts[1..][i]));
    }
  }

  predicate UnionCompiles(q: Query)
    requires q.Union?
  {
    && (forall i :: 0 <= i < |q.order| ==> TermCompiles(q.order[i]))
    && (q.check.Unchecked? || Passes(q.parts, q.check.selectKnown))
    && (forall i :: 0 <= i < |q.parts| ==> PartSurvives(q.parts[i]))
    && !AllEmpty(q.parts)
  }

  lemma UnionClauseIff(q: Query)
    requires q.Union?
    ensures UnionClause(q).Ok? <==> UnionCompiles(q)
  {
    OrderCompilesIff(q.order);
    if q.check.Checked? { RefusedIffSliced(q.parts, q.check.selectKnown); }
    PartsCompileIff(q.parts);
    NothingKept(q.parts);
    CombinatorIff(q.parts, q.all_, q.check);
  }

  lemma CombinatorIff(parts: seq<Query>, all_: bool, check: PartCheck)
    ensures CombinatorClause(parts, all_, check).Ok? <==>
              && (check.Unchecked? || CheckParts(parts, check.selectKnown).Ok?)
              && PartClauses(parts).Ok? && PartClauses(parts) != Ok([])
  {
  }

  /** A compound query compiles exactly when its ORDER BY does, the check lets its parts pass, and not all are empty. */
  lemma UnionCompilesIff(q: Query, subquery: bool)
    requires q.Union?
    ensures QueryClause(q, subquery).Ok? <==> UnionCompiles(q)
  {
    UnionClauseIff(q);
  }

  // ---- UPDATE and terminal aggregates ----

  predicate SetCompiles(a: Assignment) {
    a.value.ExprValue? ==> Compiles(a.value.node)
  }

  /** The SET list compiles exactly when every assigned expression does. */
  lemma {:induction false} SetsCompileIff(sets: seq<Assignment>)
    ensures SetClauses(sets).Ok? <==> forall i :: 0 <= i < |sets| ==> SetCompiles(sets[i])
  {
    if sets != [] {
      SetsCompileIff(sets[1..]);
      SetOutcome(sets[0]);
      Split(|sets|, i => 0 <= i < |sets| ==> SetCompiles(sets[i]),
            i => 0 <= i < |sets| - 1 ==> SetCompiles(sets[1..][i]));
    }
  }

  lemma {:induction false} AnnotationsCompileIff(annotations: seq<Node>)
    ensures AnnotationClauses(annotations).Ok? <==> forall i :: 0 <= i < |annotations| ==> Compiles(annotations[i])
  {
    if annotations != [] {
      AnnotationsCompileIff(annotations[1..]);
      Split(|annotations|, i => 0 <= i < |annotations| ==> Compiles(annotations[i]),
            i => 0 <= i < |annotations| - 1 ==> Compiles(annotations[1..][i]));
    }
  }

  /** An aggregate compiles exactly when its annotations and its query do; an empty query is handed on as such. */
  lemma AggregateCompilesIff(annotations: seq<Node>, inner: Query)
    ensures AggregateClause(annotations, inner).Ok? <==>
              (forall i :: 0 <= i < |annotations| ==> Compiles(annotations[i])) && CompileQuery(inner, true).Ok?
    ensures (forall i :: 0 <= i < |annotations| ==> Compiles(annotations[i]))
            && CompileQuery(inner, true).EmptyResultSet? ==>
              AggregateClause(annotations, inner) == EmptyResultSet
  {
    AnnotationsCompileIff(annotations);
  }
}

/** The rows of a compound query when the parts without rows are left out of its text. */
module UnionRows {
  import opened Fragments
  import opened QueryTree

  /** The parts that reach the text. */
  function KeptQueries(parts: seq<Query>): seq<Query> {
    if parts == [] then []
    else (if CompileQuery(parts[0], true).EmptyResultSet? then [] else [parts[0]]) + KeptQueries(parts[1..])
  }

  function KeptClauses(kept: seq<Query>): Outcome<seq<Clause>> {
    if kept == [] then Ok([])
    else
      var st :- CompileQuery(kept[0], true);
      var cs :- KeptClauses(kept[1..]);
      Ok([PartClause(kept[0], st)] + cs)
  }

  /** The emitted parts are those of the kept queries, in the order of the parts. */
  lemma {:induction false} PartsAreKept(parts: seq<Query>)
    ensures PartClauses(parts) == KeptClauses(KeptQueries(parts))
  {
    if parts != [] {
      PartsAreKept(parts[1..]);
      if CompileQuery(parts[0], true).EmptyResultSet? {
        assert KeptQueries(parts) == KeptQueries(parts[1..]);
      } else {
        assert KeptQueries(parts)[1..] == KeptQueries(parts[1..]);
      }
    }
  }

  predicate AllEmpty(parts: seq<Query>) {
    forall i :: 0 <= i < |parts| ==> CompileQuery(parts[i], true).EmptyResultSet?
  }

  lemma {:induction false} NothingKept(parts: seq<Query>)
    ensures KeptQueries(parts) == [] <==> AllEmpty(parts)
    ensures !PartClauses(parts).EmptyResultSet?
    ensures PartClauses(parts) == Ok([]) <==> AllEmpty(parts)
  {
    if parts != [] {
      NothingKept(parts[1..]);
      assert AllEmpty(parts) <==> CompileQuery(parts[0], true).EmptyResultSet? && AllEmpty(parts[1..]) by {
        assert forall i :: 0 <= i < |parts[1..]| ==> parts[1..][i] == parts[i + 1];
      }
    }
  }

  /** A compound query is empty exactly when every one of its parts is. */
  lemma EmptyIffAllPartsEmpty(parts: seq<Query>, all_: bool, check: PartCheck)
    requires check.Unchecked? || Passes(parts, check.selectKnown)
    ensures CombinatorClause(parts, all_, check).EmptyResultSet? <==> AllEmpty(parts)
  {
    NothingKept(parts);
    if check.Checked? { RefusedIffSliced(parts, check.selectKnown); }
  }

  predicate Passes(parts: seq<Query>, selectKnown: bool) {
    (selectKnown || parts == []) && forall i :: 0 <= i < |parts| ==> !SlicedOrOrdered(parts[i])
  }

  /**
   * The check lets exactly those parts pass that are neither sliced nor ordered;
   * without a select list to go over, it lets no part pass.
   */
  lemma {:induction false} RefusedIffSliced(parts: seq<Query>, selectKnown: bool)
    ensures CheckParts(parts, selectKnown).Ok? <==> Passes(parts, selectKnown)
  {
    if parts != [] && selectKnown {
      assert forall i :: 0 <= i < |parts[1..]| ==> parts[1..][i] == parts[i + 1];
      assert (forall i :: 0 <= i < |parts| ==> !SlicedOrOrdered(parts[i]))
          <==> !SlicedOrOrdered(parts[0]) && forall i :: 0 <= i < |parts[1..]| ==> !SlicedOrOrdered(parts[1..][i]);
      RefusedIffSliced(parts[1..], selectKnown);
      OrderedIffTerms(parts[0].order);
    }
  }

  /** If that list is unset, as it is before a compiler is set up, no compound query compiles at all. */
  lemma UnsetSelectRefusesAll(q: Query, subquery: bool)
    requires q.Union? && q.check == Checked(false) && q.parts != []
    ensures !CompileQuery(q, subquery).Ok?
  {
    RefusedIffSliced(q.parts, false);
    assert !UnionClause(q).Ok?;
  }

  lemma OrderedIffTerms(terms: seq<OrderTerm>)
    ensures CompileOrder(terms) == Ok([]) <==> terms == []
  {
    if terms == [] {
      assert CompileTerms(terms) == Ok([]);
    } else if CompileOrder(terms).Ok? {
      CompiledOrder(terms);
    }
  }

  // ---- Rows ----

  function Sum<R>(rs: seq<multiset<R>>): multiset<R> {
    if rs == [] then multiset{} else rs[0] + Sum(rs[1..])
  }

  function Once<R>(m: multiset<R>): multiset<R> {
    multiset(set r | r in m)
  }

  predicate NoDuplicates<R(==)>(m: multiset<R>) {
    m == Once(m)
  }

  /** The operators of YQL between the parts. */
  predicate IsOperator(operator: string) {
    operator == " UNION " || operator == " UNION ALL "
  }

  /** What the text denotes: `q1 UNION q2 UNION q3` associates to the left; one part has no operator. */
  function EmittedRows<R>(operator: string, rs: seq<multiset<R>>): multiset<R>
    requires IsOperator(operator) && rs != []
    decreases |rs|
  {
    var n := |rs| - 1;
    if n == 0 then rs[0]
    else
      var m := EmittedRows(operator, rs[..n]) + rs[n];
      if operator == " UNION ALL " then m else Once(m)
  }

  /** What a union promises. */
  function UnionOf<R>(all_: bool, rs: seq<multiset<R>>): multiset<R> {
    if all_ then Sum(rs) else Once(Sum(rs))
  }

  function RowsOf<R>(rows: Query -> multiset<R>, qs: seq<Query>): (rs: seq<multiset<R>>)
    ensures |rs| == |qs|
  {
    if qs == [] then [] else [rows(qs[0])] + RowsOf(rows, qs[1..])
  }

  lemma {:induction false} SumSnoc<R>(rs: seq<multiset<R>>, m: multiset<R>)
    ensures Sum(rs + [m]) == Sum(rs) + m
  {
    if rs == [] {
      assert [m][1..] == [];
    } else {
      assert (rs + [m])[1..] == rs[1..] + [m];
      SumSnoc(rs[1..], m);
    }
  }

  lemma OnceTwice<R>(a: multiset<R>, b: multiset<R>)
    ensures Once(Once(a) + b) == Once(a + b) && Once(Once(a)) == Once(a)
  {
    assert forall r :: r in Once(a) <==> r in a;
    assert forall r :: r in Once(a) + b <==> r in a + b;
    assert (set r | r in Once(a) + b) == (set r | r in a + b);
    assert (set r | r in Once(a)) == (set r | r in a);
  }

  lemma {:induction false} EmittedIsUnion<R>(all_: bool, rs: seq<multiset<R>>)
    requires rs != []
    ensures IsOperator(UnionOperator(all_))
    ensures all_ || |rs| >= 2 ==> EmittedRows(UnionOperator(all_), rs) == UnionOf(all_, rs)
    ensures Once(EmittedRows(UnionOperator(all_), rs)) == Once(Sum(rs))
    decreases |rs|
  {
    var n := |rs| - 1;
    assert rs == rs[..n] + [rs[n]];
    SumSnoc(rs[..n], rs[n]);
    if n == 0 {
      assert rs[..0] == [];
    } else {
      EmittedIsUnion(all_, rs[..n]);
      OnceTwice(EmittedRows(UnionOperator(all_), rs[..n]), rs[n]);
      OnceTwice(Sum(rs[..n]), rs[n]);
      OnceTwice(Sum(rs), multiset{});
    }
  }

  /** `EmptyResultSet` is raised only for queries that have no rows. */
  predicate EmptyMeansNoRows<R(!new)>(rows: Query -> multiset<R>, parts: seq<Query>) {
    forall i :: 0 <= i < |parts| && CompileQuery(parts[i], true).EmptyResultSet? ==> rows(parts[i]) == multiset{}
  }

  lemma {:induction false} KeptSum<R(!new)>(rows: Query -> multiset<R>, parts: seq<Query>)
    requires EmptyMeansNoRows(rows, parts)
    ensures Sum(RowsOf(rows, KeptQueries(parts))) == Sum(RowsOf(rows, parts))
  {
    if parts != [] {
      assert forall i :: 0 <= i < |parts[1..]| ==> parts[1..][i] == parts[i + 1];
      KeptSum(rows, parts[1..]);
      if CompileQuery(parts[0], true).EmptyResultSet? {
        assert KeptQueries(parts) == KeptQueries(parts[1..]);
      } else {
        assert RowsOf(rows, KeptQueries(parts))[1..] == RowsOf(rows, KeptQueries(parts)[1..]);
        assert KeptQueries(parts)[1..] == KeptQueries(parts[1..]);
      }
    }
  }

  /**
   * The emitted compound query has the rows of the union of all parts, except
   * that a UNION of which one part is left is no UNION any more: it keeps the
   * duplicates of that part.
   */
  lemma UnionIsExact<R(!new)>(rows: Query -> multiset<R>, parts: seq<Query>, all_: bool)
    requires EmptyMeansNoRows(rows, parts) && !AllEmpty(parts)
    ensures KeptQueries(parts) != []
    ensures var kept := RowsOf(rows, KeptQueries(parts));
            IsOperator(UnionOperator(all_))
            && (EmittedRows(UnionOperator(all_), kept) == UnionOf(all_, RowsOf(rows, parts))
                <==> all_ || |kept| >= 2 || NoDuplicates(kept[0]))
  {
    NothingKept(parts);
    var kept := RowsOf(rows, KeptQueries(parts));
    KeptSum(rows, parts);
    EmittedIsUnion(all_, kept);
    if |kept| == 1 {
      assert kept[1..] == [];
      assert Sum(kept) == kept[0];
    }
  }
}

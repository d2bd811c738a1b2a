/** The outermost statement: what the database reads once the holes are named and the values bound. */
module FinishedStatements {
  import opened Options
  import opened PyText
  import opened Placeholders
  import opened NameReading
  import opened Parameters
  import opened Fragments
  import opened QueryTree
  import opened TreeMeaning
  import opened StatementMeaning

  /** What the database reads, as pieces with settled bindings. */
  function Settle(ps: seq<Piece<Bound>>): Pieces {
    if ps == [] then []
    else [if ps[0].Par? then Par(Some(ps[0].p)) else Ch(ps[0].c)] + Settle(ps[1..])
  }

  lemma {:induction false} SettleInjective(ps: seq<Piece<Bound>>, qs: seq<Piece<Bound>>)
    requires Settle(ps) == Settle(qs)
    ensures ps == qs
  {
    if ps != [] && qs != [] {
      assert Settle(ps)[0] == Settle(qs)[0] && Settle(ps)[1..] == Settle(qs)[1..];
      SettleInjective(ps[1..], qs[1..]);
      assert ps == [ps[0]] + ps[1..] && qs == [qs[0]] + qs[1..];
    }
  }

  lemma {:induction false} SettleFill(s: string, bs: seq<Bound>)
    requires HoleCount(s) == |bs|
    ensures Settle(Fill(s, bs)) == Fill(s, Wrapped(bs))
  {
    if s == "" {
    } else if HoleAtStart(s) {
      SettleFill(s[2..], bs[1..]);
      assert Fill(s, bs)[1..] == Fill(s[2..], bs[1..]);
      assert Wrapped(bs)[1..] == Wrapped(bs[1..]);
    } else {
      SettleFill(s[1..], bs);
      assert Fill(s, bs)[1..] == Fill(s[1..], bs);
    }
  }

  /** The database can read all names of the statement, and `meaning` is what it reads. */
  predicate Reads(d: Dialect, named: Named, meaning: Pieces) {
    var read := ReadNames(d, Code, named.sql);
    AllBound(read, named.binds) && Settle(LookUp(read, named.binds)) == meaning
  }

  /** Every hole of the text stands in the code, outside of literals, names and comments, and runs into no word. */
  predicate Clear(d: Dialect, sql: string) {
    ClearHoles(d, Code, sql)
  }

  /** Naming keeps the meaning exactly when every hole is clear. */
  lemma NamingKeepsMeaning(d: Dialect, sql: string, bounds: seq<Bound>)
    requires HoleCount(sql) == |bounds| && !Contains(sql, PREFIX)
    ensures NameStatement(Statement(sql, bounds)).Ok?
    ensures Reads(d, NameStatement(Statement(sql, bounds)).value, Fill(sql, Wrapped(bounds))) <==> Clear(d, sql)
  {
    NamedMeaning(d, sql, bounds);
    SettleFill(sql, bounds);
    var named := NameStatement(Statement(sql, bounds)).value;
    if Reads(d, named, Fill(sql, Wrapped(bounds))) {
      SettleInjective(LookUp(ReadNames(d, Code, named.sql), named.binds), Fill(sql, bounds));
    }
  }

  /** The database reads a sound statement, once named, as it was composed, exactly when every hole is clear. */
  lemma FinishedMeaning(d: Dialect, c: Clause)
    requires Sound(c) && !Contains(c.sql, PREFIX) && Settled(Bounds(c)).Ok?
    ensures FinishClause(c).Ok?
    ensures Reads(d, FinishClause(c).value, Meaning(c)) <==> Clear(d, c.sql)
  {
    NamingKeepsMeaning(d, c.sql, Settled(Bounds(c)).value);
  }

  /**
   * The whole pipeline: where no text of its own looks like a generated name,
   * the database reads the named statement with its dictionary as the tree was
   * written, exactly when every hole is clear.
   */
  lemma TopLevelMeaning(d: Dialect, q: Query)
    requires GoodQuery(q) && CompileQuery(q, false).Ok? && !Contains(CompileQuery(q, false).value.sql, PREFIX)
    ensures TopLevel(q).Ok?
    ensures Reads(d, TopLevel(q).value, QueryPieces(q, false)) <==> Clear(d, CompileQuery(q, false).value.sql)
  {
    QueryMeaning(q, false);
    var st := CompileQuery(q, false).value;
    NamingKeepsMeaning(d, st.sql, st.bounds);
  }
}

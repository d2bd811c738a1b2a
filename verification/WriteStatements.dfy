/** The texts and parameters of DELETE, UPDATE and terminal aggregates. */
module WriteStatements {
  import opened PyText
  import opened Placeholders
  import opened NameReading
  import opened Parameters
  import opened Fragments
  import opened QueryTree
  import opened CaptureAlignment
  import opened ClauseMeaning
  import opened TreeMeaning
  import opened StatementMeaning
  import opened FinishedStatements
  import opened Lists

  /** A compiled expression with the types its capture buffer holds. */
  function Captured(c: Compiled): Outcome<Clause> {
    var f :- c.outcome;
    Ok(Clause(f.sql, f.params, c.captured))
  }

  lemma CapturedMeaning(n: Node)
    requires GoodNode(n) && WellBehaved(n) && Captured(CompileNode(n)).Ok?
    ensures CompileNode(n).outcome.Ok?
    ensures Sound(Captured(CompileNode(n)).value)
    ensures Meaning(Captured(CompileNode(n)).value) == NodePieces(n, true)
  {
    WellBehavedIsAligned(n);
    NodeMeaning(n, true);
    assert Captured(CompileNode(n)).value == NodeClause(n, true);
  }

  // ---- DELETE ----

  /** `SQLDeleteCompiler._as_sql`; `table` and `pk` are quoted names. */
  function DeleteClause(table: string, pk: string, where: Node): Outcome<Clause> {
    var c := CompileNode(where);
    if c.outcome.FullResultSet? then Ok(Glue("DELETE FROM " + table + " RETURNING " + pk))
    else
      var w :- Captured(c);
      Ok(Cat(Glue("DELETE FROM " + table + " WHERE "), Cat(w, Glue(" RETURNING " + pk))))
  }

  /** The condition of a DELETE that joins: the key is one the materialised inner query selects. */
  function KeyInSubquery(column: string, ty: FieldType, st: Statement): Node {
    Expr(ty,
         [Child(Expr(ty, [], Template([Text(column)])), false, false),
          Child(RawSql(ty, "SELECT * FROM (" + st.sql + ") subquery", TypedParams(st.bounds)), false, false)],
         Template([Ref(0), Text(" IN "), Ref(1)]))
  }

  /** `SQLDeleteCompiler.as_sql` for a query over several tables. */
  function DeleteThroughSubquery(table: string, pk: string, column: string, ty: FieldType, inner: Query)
    : Outcome<Clause>
  {
    var st :- CompileQuery(inner, true);
    DeleteClause(table, pk, KeyInSubquery(column, ty, st))
  }

  /**
   * What becomes of a condition: one that can never hold is no DELETE at all,
   * only one that always holds is left out, and any exception is handed on.
   */
  lemma DeleteOutcome(table: string, pk: string, where: Node)
    ensures var all := "DELETE FROM " + table + " RETURNING " + pk;
            match CompileNode(where).outcome
            case Ok(f) =>
              DeleteClause(table, pk, where).Ok? && DeleteClause(table, pk, where).value.sql != all
            case FullResultSet => DeleteClause(table, pk, where) == Ok(Clause(all, [], []))
            case EmptyResultSet => DeleteClause(table, pk, where) == EmptyResultSet
            case Raised => DeleteClause(table, pk, where) == Raised
  {
    if CompileNode(where).outcome.Ok? {
      var w := Captured(CompileNode(where)).value;
      LongerText("DELETE FROM " + table, " WHERE " + w.sql, " RETURNING " + pk);
      assert "DELETE FROM " + table + " WHERE " + (w.sql + (" RETURNING " + pk))
          == "DELETE FROM " + table + (" WHERE " + w.sql) + (" RETURNING " + pk);
      assert "DELETE FROM " + table + " RETURNING " + pk == "DELETE FROM " + table + (" RETURNING " + pk);
    }
  }

  lemma LongerText(a: string, b: string, c: string)
    requires b != ""
    ensures a + b + c != a + c
  {
    assert |a + b + c| > |a + c|;
  }

  lemma KeyInSubqueryCompiles(column: string, ty: FieldType, st: Statement)
    ensures CompileNode(KeyInSubquery(column, ty, st)).outcome.Ok?
  {
    var n := KeyInSubquery(column, ty, st);
    var cs := n.children;
    assert cs[0].node.children == [] && RunChildren(cs[0].node.children).results == [];
    assert CompileNode(cs[0].node).outcome.Ok? && CompileNode(cs[1].node).outcome.Ok?;
    assert cs[1..][0] == cs[1] && cs[1..][1..] == [];
    assert !RunChildren(cs[1..]).stopped;
  }

  /** A DELETE through a subquery always has a condition; where the subquery has no rows there is no DELETE. */
  lemma DeleteThroughSubqueryOutcome(table: string, pk: string, column: string, ty: FieldType, inner: Query)
    ensures var r := DeleteThroughSubquery(table, pk, column, ty, inner);
            match CompileQuery(inner, true)
            case Ok(_) => r.Ok? && r.value.sql != "DELETE FROM " + table + " RETURNING " + pk
            case FullResultSet => r == FullResultSet
            case EmptyResultSet => r == EmptyResultSet
            case Raised => r == Raised
  {
    if CompileQuery(inner, true).Ok? {
      var st := CompileQuery(inner, true).value;
      KeyInSubqueryCompiles(column, ty, st);
      DeleteOutcome(table, pk, KeyInSubquery(column, ty, st));
    }
  }

  lemma DeleteTexts(table: string, pk: string)
    requires CleanText(table) && CleanText(pk)
    ensures CleanText("DELETE FROM " + table + " WHERE ") && CleanText(" RETURNING " + pk)
    ensures CleanText("DELETE FROM " + table + " RETURNING " + pk)
  {
    PlainThen("DELETE FROM ", table);
    PlainThen(" RETURNING ", pk);
    ThenPlain("DELETE FROM " + table, " WHERE ");
    CleanJoined("DELETE FROM " + table, " RETURNING " + pk);
    Assoc("DELETE FROM " + table, " RETURNING ", pk);
  }

  lemma PlainThen(plain: string, s: string)
    requires '%' !in plain && CleanText(s)
    ensures CleanText(plain + s)
  {
    PlainIsClean(plain);
    CleanJoined(plain, s);
  }

  lemma ThenPlain(s: string, plain: string)
    requires CleanText(s) && '%' !in plain
    ensures CleanText(s + plain)
  {
    PlainIsClean(plain);
    CleanJoined(s, plain);
  }

  lemma DeleteMeaning(table: string, pk: string, where: Node)
    requires CleanText(table) && CleanText(pk) && GoodNode(where) && WellBehaved(where)
    requires DeleteClause(table, pk, where).Ok?
    ensures var c := DeleteClause(table, pk, where).value;
            Sound(c) && Meaning(c) ==
              if CompileNode(where).outcome.Ok? then
                Chars("DELETE FROM " + table + " WHERE ") + NodePieces(where, true) + Chars(" RETURNING " + pk)
              else Chars("DELETE FROM " + table + " RETURNING " + pk)
  {
    DeleteTexts(table, pk);
    if CompileNode(where).outcome.Ok? {
      CapturedMeaning(where);
      SurroundMeaning("DELETE FROM " + table + " WHERE ", Captured(CompileNode(where)).value, " RETURNING " + pk);
    } else {
      GlueMeaning("DELETE FROM " + table + " RETURNING " + pk);
    }
  }

  lemma KeyColumn(column: string, ty: FieldType)
    requires CleanText(column)
    ensures var n := Expr(ty, [], Template([Text(column)]));
            && GoodNode(n) && WellBehaved(n)
            && CompileNode(n).outcome == Ok(Frag(column, []))
            && NodePieces(n, true) == Chars(column)
  {
    var items := [Text(column)];
    var n := Expr(ty, [], Template(items));
    Single(Text(column));
    Unit(column);
    assert Expand(items[1..], []) == Frag("", []);
    assert Expand(items, []) == Frag(column, []);
    assert Carriers(items[1..], n) == [];
    assert Carriers(items, n) == [] && ChildRefs(n, 0) == [];
    assert ItemsPieces(items[1..], n, true) == [];
    Unit(Chars(column));
    assert ItemsPieces(items, n, true) == Chars(column);
  }

  /** A materialised statement, as the right-hand side of the condition. */
  lemma RawPieces(ty: FieldType, text: string, params: seq<Param>)
    requires Sound(Clause(text, params, Repeat(ty, |params|)))
    ensures var raw := RawSql(ty, text, params);
            && GoodNode(raw) && WellBehaved(raw) && CompileNode(raw).outcome == Ok(Frag("(" + text + ")", params))
            && NodePieces(raw, true) == Chars("(") + Meaning(Clause(text, params, Repeat(ty, |params|))) + Chars(")")
  {
  }

  lemma SurroundedText(before: string, sql: string, after: string, ps: seq<Param>, types: seq<FieldType>)
    requires CleanText(before) && CleanText(after) && Sound(Clause(sql, ps, types))
    ensures Sound(Clause(before + sql + after, ps, types))
    ensures Meaning(Clause(before + sql + after, ps, types))
         == Chars(before) + Meaning(Clause(sql, ps, types)) + Chars(after)
  {
    SurroundMeaning(before, Clause(sql, ps, types), after);
    SurroundedClause(before, sql, after, ps, types);
  }

  /** The pieces of `(SELECT * FROM (...) subquery)`. */
  function MaterialisedPieces(inner: Pieces): Pieces {
    Chars("(") + (Chars("SELECT * FROM (") + inner + Chars(") subquery")) + Chars(")")
  }

  lemma MaterialisedMeaning(ty: FieldType, st: Statement)
    requires HoleCount(st.sql) == |st.bounds| && !EndsOpen(st.sql)
    ensures var raw := RawSql(ty, "SELECT * FROM (" + st.sql + ") subquery", TypedParams(st.bounds));
            && GoodNode(raw) && WellBehaved(raw) && CompileNode(raw).outcome.Ok?
            && NodePieces(raw, true) == MaterialisedPieces(Fill(st.sql, Wrapped(st.bounds)))
  {
    SurroundedRaw("SELECT * FROM (", ") subquery", ty, st);
  }

  lemma SurroundedRaw(before: string, after: string, ty: FieldType, st: Statement)
    requires '%' !in before && '%' !in after
    requires HoleCount(st.sql) == |st.bounds| && !EndsOpen(st.sql)
    ensures var raw := RawSql(ty, before + st.sql + after, TypedParams(st.bounds));
            && GoodNode(raw) && WellBehaved(raw) && CompileNode(raw).outcome.Ok?
            && NodePieces(raw, true)
               == Chars("(") + (Chars(before) + Fill(st.sql, Wrapped(st.bounds)) + Chars(after)) + Chars(")")
  {
    var ps := TypedParams(st.bounds);
    PlainIsClean(before);
    PlainIsClean(after);
    TypedParamsPassThrough(Repeat(ty, |ps|), st.bounds);
    SurroundedText(before, st.sql, after, ps, Repeat(ty, |ps|));
    RawPieces(ty, before + st.sql + after, ps);
  }

  /** An operator between an operand without parameters and another one. */
  predicate Binary(n: Node, operator: string) {
    && n.Expr? && |n.children| == 2 && n.body == Template([Ref(0), Text(operator), Ref(1)])
    && CleanText(operator)
    && (forall i :: 0 <= i < 2 ==>
          GoodNode(ChildAt(n, i)) && WellBehaved(ChildAt(n, i)) && CompileNode(ChildAt(n, i)).outcome.Ok?)
    && CompileNode(ChildAt(n, 0)).outcome.value.params == []
  }

  lemma BinaryCompiles(n: Node, operator: string)
    requires Binary(n, operator)
    ensures GoodNode(n) && CompileNode(n).outcome.Ok?
  {
    var cs := n.children;
    assert cs[0].node == ChildAt(n, 0) && cs[1].node == ChildAt(n, 1);
    assert cs[1..][0] == cs[1] && cs[1..][1..] == [];
    assert RunChildren(cs[1..]).results == [CompileNode(cs[1].node).outcome];
    assert !RunChildren(cs[1..]).stopped;
  }

  lemma BinaryItems(operator: string)
    ensures var items := [Ref(0), Text(operator), Ref(1)];
            && items[0] == Ref(0) && items[1..][0] == Text(operator) && items[1..][1..][0] == Ref(1)
            && items[1..][1..][1..] == []
  {
  }

  lemma BinaryDisciplined(n: Node, operator: string)
    requires Binary(n, operator)
    ensures WellBehaved(n)
  {
    var items := [Ref(0), Text(operator), Ref(1)];
    BinaryItems(operator);
    var tail := if CarryingChild(n, 1) then [Ref(1)] else [];
    assert Carriers(items[1..][1..], n) == tail;
    assert Carriers(items[1..], n) == tail;
    assert Carriers(items, n) == tail;
    assert ChildRefs(n, 2) == [];
    assert ChildRefs(n, 1) == tail;
    assert ChildRefs(n, 0) == tail;
  }

  lemma BinaryPieces(n: Node, operator: string)
    requires Binary(n, operator) && GoodNode(n) && CompileNode(n).outcome.Ok?
    ensures NodePieces(n, true)
         == NodePieces(ChildAt(n, 0), true) + (Chars(operator) + NodePieces(ChildAt(n, 1), true))
  {
    var items := [Ref(0), Text(operator), Ref(1)];
    BinaryItems(operator);
    var first, last := NodePieces(ChildAt(n, 0), true), NodePieces(ChildAt(n, 1), true);
    assert ItemPieces(items[0], n, true) == first;
    assert ItemPieces(items[1..][0], n, true) == Chars(operator);
    assert ItemPieces(items[1..][1..][0], n, true) == last;
    ConsPieces(items[1..][1..], n);
    ConsPieces(items[1..], n);
    ConsPieces(items, n);
    Unit(last);
    assert NodePieces(n, true) == ItemsPieces(items, n, true);
  }

  lemma ConsPieces(items: seq<Item>, n: Node)
    requires n.Expr? && GoodNode(n) && items != []
    ensures ItemsPieces(items, n, true) == ItemPieces(items[0], n, true) + ItemsPieces(items[1..], n, true)
    ensures ItemsPieces([], n, true) == []
  {
  }

  lemma KeyIsBinary(column: string, ty: FieldType, st: Statement)
    requires CleanText(column) && HoleCount(st.sql) == |st.bounds| && !EndsOpen(st.sql)
    ensures var n := KeyInSubquery(column, ty, st);
            && ChildAt(n, 0) == Expr(ty, [], Template([Text(column)]))
            && ChildAt(n, 1) == RawSql(ty, "SELECT * FROM (" + st.sql + ") subquery", TypedParams(st.bounds))
            && Binary(n, " IN ")
  {
    KeyColumn(column, ty);
    MaterialisedMeaning(ty, st);
    PlainIsClean(" IN ");
  }

  /** The condition `pk IN (SELECT * FROM (...) subquery)` is well behaved, and these are its pieces. */
  lemma KeyInSubqueryMeaning(column: string, ty: FieldType, st: Statement)
    requires CleanText(column) && HoleCount(st.sql) == |st.bounds| && !EndsOpen(st.sql)
    ensures var n := KeyInSubquery(column, ty, st);
            && GoodNode(n) && WellBehaved(n) && CompileNode(n).outcome.Ok?
            && NodePieces(n, true)
               == Chars(column) + (Chars(" IN ") + MaterialisedPieces(Fill(st.sql, Wrapped(st.bounds))))
  {
    var n := KeyInSubquery(column, ty, st);
    KeyColumn(column, ty);
    MaterialisedMeaning(ty, st);
    KeyIsBinary(column, ty, st);
    BinaryCompiles(n, " IN ");
    BinaryDisciplined(n, " IN ");
    BinaryPieces(n, " IN ");
  }

  /** A DELETE through a subquery binds every value of the inner query as the inner query would. */
  lemma DeleteThroughSubqueryMeaning(table: string, pk: string, column: string, ty: FieldType, inner: Query)
    requires CleanText(table) && CleanText(pk) && CleanText(column) && GoodQuery(inner)
    requires CompileQuery(inner, true).Ok?
    ensures DeleteThroughSubquery(table, pk, column, ty, inner).Ok?
    ensures var c := DeleteThroughSubquery(table, pk, column, ty, inner).value;
            Sound(c) && Meaning(c) ==
              Chars("DELETE FROM " + table + " WHERE ")
              + (Chars(column) + (Chars(" IN ") + MaterialisedPieces(QueryPieces(inner, true))))
              + Chars(" RETURNING " + pk)
  {
    QueryMeaning(inner, true);
    var st := CompileQuery(inner, true).value;
    KeyInSubqueryMeaning(column, ty, st);
    DeleteMeaning(table, pk, KeyInSubquery(column, ty, st));
  }

  // ---- UPDATE ----

  datatype AssignedValue = ExprValue(node: Node, coalesce: bool) | PlainValue(v: PyValue, ty: FieldType) | NullValue

  /** `column = value`; the column is a quoted name. */
  datatype Assignment = Assignment(column: string, value: AssignedValue)

  function SetClause(a: Assignment): Outcome<Clause> {
    match a.value
    case ExprValue(node, coalesce) =>
      var c :- Captured(CompileNode(node));
      Ok(Cat(Glue(a.column + " = "),
             if coalesce then Cat(Glue("COALESCE("), Cat(c, Glue(", " + a.column + ")"))) else c))
    case PlainValue(v, ty) => Ok(Cat(Glue(a.column + " = "), Clause("%s", [Plain(v)], [ty])))
    case NullValue => Ok(Glue(a.column + " = NULL"))
  }

  function SetClauses(sets: seq<Assignment>): Outcome<seq<Clause>> {
    if sets == [] then Ok([])
    else
      var c :- SetClause(sets[0]);
      var cs :- SetClauses(sets[1..]);
      Ok([c] + cs)
  }

  /** The WHERE part of an UPDATE; a condition that is always true leaves none. */
  function UpdateCondition(where: Node): Outcome<seq<Clause>> {
    var c := CompileNode(where);
    if c.outcome.FullResultSet? then Ok([])
    else
      var w :- Captured(c);
      Ok([Cat(Glue("WHERE "), w)])
  }

  /** `SQLUpdateCompiler.as_sql`. */
  function UpdateClause(table: string, pk: string, sets: seq<Assignment>, where: Node): Outcome<Clause> {
    if sets == [] then Ok(Glue(""))
    else
      var cs :- SetClauses(sets);
      var w :- UpdateCondition(where);
      Ok(JoinClauses([Glue("UPDATE " + table + " SET"), JoinClauses(cs, ", ")] + w + [Glue("RETURNING " + pk)], " "))
  }

  /** Setting a column raises what the expression raises, and nothing else. */
  lemma SetOutcome(a: Assignment)
    ensures match a.value
            case ExprValue(node, _) =>
              && (SetClause(a).Ok? <==> CompileNode(node).outcome.Ok?)
              && (SetClause(a).EmptyResultSet? <==> CompileNode(node).outcome.EmptyResultSet?)
              && (SetClause(a).FullResultSet? <==> CompileNode(node).outcome.FullResultSet?)
            case _ => SetClause(a).Ok?
  {
  }

  /**
   * As for DELETE: only a condition that always holds is left out, and one that
   * can never hold, as any exception, is handed on.
   */
  lemma UpdateOutcome(table: string, pk: string, sets: seq<Assignment>, where: Node)
    requires sets != []
    ensures var r := UpdateClause(table, pk, sets, where);
            if !SetClauses(sets).Ok? then r == SetClauses(sets).PropagateFailure()
            else
              var list := JoinClauses(SetClauses(sets).value, ", ");
              var all := JoinClauses([Glue("UPDATE " + table + " SET"), list, Glue("RETURNING " + pk)], " ");
              match CompileNode(where).outcome
              case Ok(f) => r.Ok? && |r.value.sql| > |all.sql| + |f.sql|
              case FullResultSet => r == Ok(all)
              case EmptyResultSet => r == EmptyResultSet
              case Raised => r == Raised
  {
    if SetClauses(sets).Ok? {
      var head, list := Glue("UPDATE " + table + " SET"), JoinClauses(SetClauses(sets).value, ", ");
      var tail := Glue("RETURNING " + pk);
      assert [head, list] + [] + [tail] == [head, list, tail];
      if CompileNode(where).outcome.Ok? {
        var w := Cat(Glue("WHERE "), Captured(CompileNode(where)).value);
        assert [head, list] + [w] + [tail] == [head, list, w, tail];
        JoinedLengths(head, list, w, tail);
      }
    }
  }

  lemma JoinedLengths(a: Clause, b: Clause, c: Clause, d: Clause)
    ensures |JoinClauses([a, b, c, d], " ").sql| == |JoinClauses([a, b, d], " ").sql| + |c.sql| + 1
  {
    assert [a, b, c, d][1..] == [b, c, d] && [b, c, d][1..] == [c, d] && [c, d][1..] == [d];
    assert [a, b, d][1..] == [b, d] && [b, d][1..] == [d];
    assert |JoinClauses([c, d], " ").sql| == |c.sql| + 1 + |d.sql|;
    assert |JoinClauses([b, c, d], " ").sql| == |b.sql| + 1 + |c.sql| + 1 + |d.sql|;
    assert |JoinClauses([b, d], " ").sql| == |b.sql| + 1 + |d.sql|;
  }

  predicate GoodAssignment(a: Assignment) {
    CleanText(a.column) && (a.value.ExprValue? ==> GoodNode(a.value.node) && WellBehaved(a.value.node))
  }

  function SetPieces(a: Assignment): Pieces
    requires GoodAssignment(a) && SetClause(a).Ok?
  {
    match a.value
    case ExprValue(node, coalesce) =>
      Chars(a.column + " = ")
      + (if coalesce then Chars("COALESCE(") + NodePieces(node, true) + Chars(", " + a.column + ")")
         else NodePieces(node, true))
    case PlainValue(v, ty) => Chars(a.column + " = ") + [Par(ResolveOne(ty, v))]
    case NullValue => Chars(a.column + " = NULL")
  }

  predicate GoodAssignments(sets: seq<Assignment>) {
    forall i :: 0 <= i < |sets| ==> GoodAssignment(sets[i])
  }

  function SetsPieces(sets: seq<Assignment>): seq<Pieces>
    requires GoodAssignments(sets) && SetClauses(sets).Ok?
  {
    if sets == [] then [] else [SetPieces(sets[0])] + SetsPieces(sets[1..])
  }

  lemma SetMeaning(a: Assignment)
    requires GoodAssignment(a) && SetClause(a).Ok?
    ensures Sound(SetClause(a).value) && Meaning(SetClause(a).value) == SetPieces(a)
  {
    ThenPlain(a.column, " = ");
    match a.value
    case ExprValue(node, coalesce) =>
      CapturedMeaning(node);
      var c := Captured(CompileNode(node)).value;
      if coalesce {
        PlainIsClean("COALESCE(");
        PlainThen(", ", a.column);
        ThenPlain(", " + a.column, ")");
        SurroundMeaning("COALESCE(", c, ", " + a.column + ")");
        PrefixMeaning(a.column + " = ", Cat(Glue("COALESCE("), Cat(c, Glue(", " + a.column + ")"))));
      } else {
        PrefixMeaning(a.column + " = ", c);
      }
    case PlainValue(v, ty) =>
      OwnMeaning(v, ty);
      PrefixMeaning(a.column + " = ", Clause("%s", [Plain(v)], [ty]));
    case NullValue =>
      ThenPlain(a.column, " = NULL");
      GlueMeaning(a.column + " = NULL");
  }

  lemma {:induction false} SetsMeaning(sets: seq<Assignment>)
    requires GoodAssignments(sets) && SetClauses(sets).Ok?
    ensures AllSound(SetClauses(sets).value) && Meanings(SetClauses(sets).value) == SetsPieces(sets)
  {
    if sets != [] {
      SetMeaning(sets[0]);
      SetsMeaning(sets[1..]);
      ConsMeanings(SetClause(sets[0]).value, SetClauses(sets[1..]).value);
    }
  }

  lemma UpdateConditionMeaning(where: Node)
    requires GoodNode(where) && WellBehaved(where) && UpdateCondition(where).Ok?
    ensures AllSound(UpdateCondition(where).value)
    ensures Meanings(UpdateCondition(where).value)
         == if CompileNode(where).outcome.Ok? then [Chars("WHERE ") + NodePieces(where, true)] else []
  {
    if CompileNode(where).outcome.Ok? {
      var w := Captured(CompileNode(where)).value;
      CapturedMeaning(where);
      PlainIsClean("WHERE ");
      PrefixMeaning("WHERE ", w);
      OneMeaning(Cat(Glue("WHERE "), w));
      assert UpdateCondition(where) == Ok([Cat(Glue("WHERE "), w)]);
    } else {
      assert UpdateCondition(where) == Ok([]);
    }
  }

  lemma UpdateTexts(table: string, pk: string)
    requires CleanText(table) && CleanText(pk)
    ensures CleanText("UPDATE " + table + " SET") && CleanText("RETURNING " + pk)
  {
    PlainThen("UPDATE ", table);
    ThenPlain("UPDATE " + table, " SET");
    PlainThen("RETURNING ", pk);
  }

  lemma UpdateParts(head: string, cs: seq<Clause>, w: seq<Clause>, tail: string)
    requires CleanText(head) && AllSound(cs) && AllSound(w) && CleanText(tail)
    ensures var c := JoinClauses([Glue(head), JoinClauses(cs, ", ")] + w + [Glue(tail)], " ");
            Sound(c) && Meaning(c)
              == JoinPieces([Chars(head), JoinPieces(Meanings(cs), ", ")] + Meanings(w) + [Chars(tail)], " ")
  {
    GlueMeaning(head);
    GlueMeaning(tail);
    var list := JoinClauses(cs, ", ");
    PlainJoinMeaning(cs, ", ");
    OneMeaning(list);
    OneMeaning(Glue(tail));
    ConsMeanings(Glue(head), [list]);
    var front := [Glue(head), list];
    assert front == [Glue(head)] + [list];
    assert Meanings(front) == [Chars(head), JoinPieces(Meanings(cs), ", ")];
    AppendMeanings(front, w);
    AppendMeanings(front + w, [Glue(tail)]);
    PlainJoinMeaning(front + w + [Glue(tail)], " ");
  }

  /** SET values come before WHERE values, each with the type of its column or expression. */
  lemma UpdateMeaning(table: string, pk: string, sets: seq<Assignment>, where: Node)
    requires CleanText(table) && CleanText(pk) && GoodAssignments(sets) && GoodNode(where) && WellBehaved(where)
    requires sets != [] && UpdateClause(table, pk, sets, where).Ok?
    ensures SetClauses(sets).Ok?
    ensures var c := UpdateClause(table, pk, sets, where).value;
            Sound(c) && Meaning(c) == JoinPieces(
              [Chars("UPDATE " + table + " SET"), JoinPieces(SetsPieces(sets), ", ")]
              + (if CompileNode(where).outcome.Ok? then [Chars("WHERE ") + NodePieces(where, true)] else [])
              + [Chars("RETURNING " + pk)], " ")
  {
    UpdateTexts(table, pk);
    SetsMeaning(sets);
    UpdateConditionMeaning(where);
    UpdateParts("UPDATE " + table + " SET", SetClauses(sets).value, UpdateCondition(where).value, "RETURNING " + pk);
  }

  // ---- Terminal aggregates ----

  function AnnotationClauses(annotations: seq<Node>): Outcome<seq<Clause>> {
    if annotations == [] then Ok([])
    else
      var c :- Captured(CompileNode(annotations[0]));
      var cs :- AnnotationClauses(annotations[1..]);
      Ok([c] + cs)
  }

  /** `SQLAggregateCompiler.as_sql`. */
  function AggregateClause(annotations: seq<Node>, inner: Query): Outcome<Clause> {
    var cs :- AnnotationClauses(annotations);
    var st :- CompileQuery(inner, true);
    Ok(WrapperClause(cs, Untyped(Frag(st.sql, TypedParams(st.bounds)))))
  }

  predicate GoodAnnotations(annotations: seq<Node>) {
    forall i :: 0 <= i < |annotations| ==> GoodNode(annotations[i]) && WellBehaved(annotations[i])
  }

  function AnnotationPieces(annotations: seq<Node>): seq<Pieces>
    requires GoodAnnotations(annotations) && AnnotationClauses(annotations).Ok?
  {
    if annotations == [] then []
    else
      CapturedMeaning(annotations[0]);
      [NodePieces(annotations[0], true)] + AnnotationPieces(annotations[1..])
  }

  lemma {:induction false} AnnotationsMeaning(annotations: seq<Node>)
    requires GoodAnnotations(annotations) && AnnotationClauses(annotations).Ok?
    ensures AllSound(AnnotationClauses(annotations).value)
    ensures Meanings(AnnotationClauses(annotations).value) == AnnotationPieces(annotations)
  {
    if annotations != [] {
      CapturedMeaning(annotations[0]);
      AnnotationsMeaning(annotations[1..]);
      ConsMeanings(Captured(CompileNode(annotations[0])).value, AnnotationClauses(annotations[1..]).value);
    }
  }

  /** An aggregate binds its annotations by their own types and the inner query as that query would. */
  lemma AggregateMeaning(annotations: seq<Node>, inner: Query)
    requires GoodAnnotations(annotations) && GoodQuery(inner)
    requires AnnotationClauses(annotations).Ok? && CompileQuery(inner, true).Ok?
    ensures AggregateClause(annotations, inner).Ok?
    ensures var c := AggregateClause(annotations, inner).value;
            Sound(c) && Meaning(c) ==
              Chars("SELECT ") + JoinPieces(AnnotationPieces(annotations), ", ") + Chars(" FROM (")
              + QueryPieces(inner, true) + Chars(") subquery")
  {
    AnnotationsMeaning(annotations);
    QueryMeaning(inner, true);
    var st := CompileQuery(inner, true).value;
    var body := Untyped(Frag(st.sql, TypedParams(st.bounds)));
    TypedParamsPassThrough(body.types, st.bounds);
    WrapperMeaning(AnnotationClauses(annotations).value, body);
  }

  // ---- Whole statements ----

  function FinishDelete(table: string, pk: string, where: Node): Outcome<Named> {
    var c :- DeleteClause(table, pk, where);
    FinishClause(c)
  }

  function FinishDeleteThroughSubquery(table: string, pk: string, column: string, ty: FieldType, inner: Query)
    : Outcome<Named>
  {
    var c :- DeleteThroughSubquery(table, pk, column, ty, inner);
    FinishClause(c)
  }

  function FinishUpdate(table: string, pk: string, sets: seq<Assignment>, where: Node): Outcome<Named> {
    var c :- UpdateClause(table, pk, sets, where);
    FinishClause(c)
  }

  function FinishAggregate(annotations: seq<Node>, inner: Query): Outcome<Named> {
    var c :- AggregateClause(annotations, inner);
    FinishClause(c)
  }

  /** Naming and binding raise nothing but what one value or hole too many raises. */
  lemma FinishOutcome(c: Clause)
    ensures FinishClause(c).Ok? || FinishClause(c).Raised?
    ensures FinishClause(c).Ok? <==>
              (forall i :: 0 <= i < |c.params| ==> Bounds(c)[i].Some?) && HoleCount(c.sql) <= |c.params|
  {
    SettledIff(Bounds(c));
  }

  /** So the exception of a condition comes out as that exception, and without one the statement is named. */
  lemma FinishedDeleteOutcome(table: string, pk: string, where: Node)
    ensures var r := FinishDelete(table, pk, where);
            match CompileNode(where).outcome
            case EmptyResultSet => r == EmptyResultSet
            case Raised => r == Raised
            case FullResultSet => r == NameStatement(Statement("DELETE FROM " + table + " RETURNING " + pk, []))
            case Ok(_) => r.Ok? || r.Raised?
  {
    DeleteOutcome(table, pk, where);
    if DeleteClause(table, pk, where).Ok? {
      var c := DeleteClause(table, pk, where).value;
      FinishOutcome(c);
      if c.params == [] { assert Bounds(c) == []; }
    }
  }

  lemma FinishedUpdateOutcome(table: string, pk: string, sets: seq<Assignment>, where: Node)
    requires sets != [] && SetClauses(sets).Ok?
    ensures var r := FinishUpdate(table, pk, sets, where);
            match CompileNode(where).outcome
            case EmptyResultSet => r == EmptyResultSet
            case Raised => r == Raised
            case _ => r.Ok? || r.Raised?
  {
    UpdateOutcome(table, pk, sets, where);
    if UpdateClause(table, pk, sets, where).Ok? {
      FinishOutcome(UpdateClause(table, pk, sets, where).value);
    }
  }

  // ---- What the database reads ----

  lemma DeleteReads(d: Dialect, table: string, pk: string, where: Node)
    requires CleanText(table) && CleanText(pk) && GoodNode(where) && WellBehaved(where)
    requires DeleteClause(table, pk, where).Ok?
    requires var c := DeleteClause(table, pk, where).value;
             !Contains(c.sql, PREFIX) && Settled(Bounds(c)).Ok?
    ensures var finished := FinishDelete(table, pk, where);
            finished.Ok? && (Reads(d, finished.value,
              if CompileNode(where).outcome.Ok? then
                Chars("DELETE FROM " + table + " WHERE ") + NodePieces(where, true) + Chars(" RETURNING " + pk)
              else Chars("DELETE FROM " + table + " RETURNING " + pk))
            <==> Clear(d, DeleteClause(table, pk, where).value.sql))
  {
    DeleteMeaning(table, pk, where);
    FinishedMeaning(d, DeleteClause(table, pk, where).value);
  }

  /** The named DELETE is read as its tree is written, exactly when every hole is clear. */
  lemma DeleteThroughSubqueryReads(d: Dialect, table: string, pk: string, column: string, ty: FieldType, inner: Query)
    requires CleanText(table) && CleanText(pk) && CleanText(column) && GoodQuery(inner)
    requires CompileQuery(inner, true).Ok? && DeleteThroughSubquery(table, pk, column, ty, inner).Ok?
    requires var c := DeleteThroughSubquery(table, pk, column, ty, inner).value;
             !Contains(c.sql, PREFIX) && Settled(Bounds(c)).Ok?
    ensures var finished := FinishDeleteThroughSubquery(table, pk, column, ty, inner);
            finished.Ok? && (Reads(d, finished.value,
              Chars("DELETE FROM " + table + " WHERE ")
              + (Chars(column) + (Chars(" IN ") + MaterialisedPieces(QueryPieces(inner, true))))
              + Chars(" RETURNING " + pk))
            <==> Clear(d, DeleteThroughSubquery(table, pk, column, ty, inner).value.sql))
  {
    DeleteThroughSubqueryMeaning(table, pk, column, ty, inner);
    FinishedMeaning(d, DeleteThroughSubquery(table, pk, column, ty, inner).value);
  }

  lemma UpdateReads(d: Dialect, table: string, pk: string, sets: seq<Assignment>, where: Node)
    requires CleanText(table) && CleanText(pk) && GoodAssignments(sets) && GoodNode(where) && WellBehaved(where)
    requires sets != [] && UpdateClause(table, pk, sets, where).Ok?
    requires var c := UpdateClause(table, pk, sets, where).value;
             !Contains(c.sql, PREFIX) && Settled(Bounds(c)).Ok?
    ensures SetClauses(sets).Ok?
    ensures var finished := FinishUpdate(table, pk, sets, where);
            finished.Ok? && (Reads(d, finished.value, JoinPieces(
              [Chars("UPDATE " + table + " SET"), JoinPieces(SetsPieces(sets), ", ")]
              + (if CompileNode(where).outcome.Ok? then [Chars("WHERE ") + NodePieces(where, true)] else [])
              + [Chars("RETURNING " + pk)], " "))
            <==> Clear(d, UpdateClause(table, pk, sets, where).value.sql))
  {
    UpdateMeaning(table, pk, sets, where);
    FinishedMeaning(d, UpdateClause(table, pk, sets, where).value);
  }

  lemma AggregateReads(d: Dialect, annotations: seq<Node>, inner: Query)
    requires GoodAnnotations(annotations) && GoodQuery(inner)
    requires AnnotationClauses(annotations).Ok? && CompileQuery(inner, true).Ok?
    requires AggregateClause(annotations, inner).Ok?
    requires var c := AggregateClause(annotations, inner).value;
             !Contains(c.sql, PREFIX) && Settled(Bounds(c)).Ok?
    ensures var finished := FinishAggregate(annotations, inner);
            finished.Ok? && (Reads(d, finished.value,
              Chars("SELECT ") + JoinPieces(AnnotationPieces(annotations), ", ") + Chars(" FROM (")
              + QueryPieces(inner, true) + Chars(") subquery"))
            <==> Clear(d, AggregateClause(annotations, inner).value.sql))
  {
    AggregateMeaning(annotations, inner);
    FinishedMeaning(d, AggregateClause(annotations, inner).value);
  }
}

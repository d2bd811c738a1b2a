/** The values that UPDATE, DELETE and terminal aggregates bind, against the leaves of their trees. */
module WrittenLeaves {
  import opened Options
  import opened Placeholders
  import opened Parameters
  import opened Fragments
  import opened QueryTree
  import opened CaptureAlignment
  import opened TreeMeaning
  import opened WriteStatements
  import opened LeafValues
  import opened Lists

  /** Every parameter of the clause holds the leaf in its place. */
  predicate HoldsLeaves(c: Clause, leaves: seq<Leaf>) {
    |c.params| == |leaves| && forall k :: 0 <= k < |leaves| ==> Holds(leaves[k], Bounds(c)[k])
  }

  lemma MeaningHoldsLeaves(c: Clause, m: Pieces, leaves: seq<Leaf>)
    requires Sound(c) && Meaning(c) == m && Pars(m) == LeafBindings(leaves)
    ensures HoldsLeaves(c, leaves)
  {
    ParsOfFill(c.sql, Bounds(c));
    forall k | 0 <= k < |leaves|
      ensures Holds(leaves[k], Bounds(c)[k])
    {
      LeafHolds(leaves[k]);
    }
  }

  /** The leaves of a condition; one that is always true is left out. */
  function WhereLeaves(where: Node): seq<Leaf>
    requires GoodNode(where)
  {
    if CompileNode(where).outcome.Ok? then NodeLeaves(where, true) else []
  }

  // ---- DELETE ----

  lemma DeleteHoldsLeaves(table: string, pk: string, where: Node)
    requires CleanText(table) && CleanText(pk) && GoodNode(where) && WellBehaved(where)
    requires DeleteClause(table, pk, where).Ok?
    ensures HoldsLeaves(DeleteClause(table, pk, where).value, WhereLeaves(where))
  {
    var c := DeleteClause(table, pk, where).value;
    DeleteMeaning(table, pk, where);
    if CompileNode(where).outcome.Ok? {
      NodeBindings(where, true);
      ParsSurrounded("DELETE FROM " + table + " WHERE ", NodePieces(where, true), " RETURNING " + pk);
    } else {
      ParsOfChars("DELETE FROM " + table + " RETURNING " + pk);
    }
    MeaningHoldsLeaves(c, Meaning(c), WhereLeaves(where));
  }

  lemma DeleteThroughSubqueryHoldsLeaves(table: string, pk: string, column: string, ty: FieldType, inner: Query)
    requires CleanText(table) && CleanText(pk) && CleanText(column) && GoodQuery(inner)
    requires CompileQuery(inner, true).Ok?
    ensures DeleteThroughSubquery(table, pk, column, ty, inner).Ok?
    ensures HoldsLeaves(DeleteThroughSubquery(table, pk, column, ty, inner).value, QueryLeaves(inner, true))
  {
    DeleteThroughSubqueryMeaning(table, pk, column, ty, inner);
    QueryBindings(inner, true);
    var ps := QueryPieces(inner, true);
    var condition := Chars(column) + (Chars(" IN ") + MaterialisedPieces(ps));
    ParsSurrounded("SELECT * FROM (", ps, ") subquery");
    ParsSurrounded("(", Chars("SELECT * FROM (") + ps + Chars(") subquery"), ")");
    ParsPrefixed(" IN ", MaterialisedPieces(ps));
    ParsPrefixed(column, Chars(" IN ") + MaterialisedPieces(ps));
    ParsSurrounded("DELETE FROM " + table + " WHERE ", condition, " RETURNING " + pk);
    var c := DeleteThroughSubquery(table, pk, column, ty, inner).value;
    MeaningHoldsLeaves(c, Meaning(c), QueryLeaves(inner, true));
  }

  // ---- UPDATE ----

  function SetLeaves(a: Assignment): seq<Leaf>
    requires GoodAssignment(a) && SetClause(a).Ok?
  {
    match a.value
    case ExprValue(node, _) => NodeLeaves(node, true)
    case PlainValue(v, ty) => [Leaf(ty, Plain(v))]
    case NullValue => []
  }

  function SetsLeaves(sets: seq<Assignment>): seq<Leaf>
    requires GoodAssignments(sets) && SetClauses(sets).Ok?
  {
    if sets == [] then [] else SetLeaves(sets[0]) + SetsLeaves(sets[1..])
  }

  lemma SetBindings(a: Assignment)
    requires GoodAssignment(a) && SetClause(a).Ok?
    ensures Pars(SetPieces(a)) == LeafBindings(SetLeaves(a))
  {
    match a.value
    case ExprValue(node, coalesce) =>
      NodeBindings(node, true);
      if coalesce {
        ParsSurrounded("COALESCE(", NodePieces(node, true), ", " + a.column + ")");
        ParsPrefixed(a.column + " = ", Chars("COALESCE(") + NodePieces(node, true) + Chars(", " + a.column + ")"));
      } else {
        ParsPrefixed(a.column + " = ", NodePieces(node, true));
      }
    case PlainValue(v, ty) =>
      OneBinding(ty, v);
      ParsPrefixed(a.column + " = ", [Par(ResolveOne(ty, v))]);
    case NullValue => ParsOfChars(a.column + " = NULL");
  }

  lemma {:induction false} SetsBindings(sets: seq<Assignment>)
    requires GoodAssignments(sets) && SetClauses(sets).Ok?
    ensures ParsAll(SetsPieces(sets)) == LeafBindings(SetsLeaves(sets))
  {
    if sets != [] {
      SetBindings(sets[0]);
      SetsBindings(sets[1..]);
      ConsBindings(SetPieces(sets[0]), SetsPieces(sets[1..]), SetLeaves(sets[0]), SetsLeaves(sets[1..]));
    }
  }

  lemma UpdatePars(head: string, sets: seq<Pieces>, where: seq<Pieces>, tail: string)
    ensures Pars(JoinPieces([Chars(head), JoinPieces(sets, ", ")] + where + [Chars(tail)], " "))
         == ParsAll(sets) + ParsAll(where)
  {
    var list := JoinPieces(sets, ", ");
    ParsJoined(sets, ", ");
    ParsOne(list);
    TextPars(head);
    TextPars(tail);
    assert [Chars(head), list] == [Chars(head)] + [list];
    ParsAllConcat([Chars(head)], [list]);
    ParsAllConcat([Chars(head), list], where);
    ParsAllConcat([Chars(head), list] + where, [Chars(tail)]);
    ParsJoined([Chars(head), list] + where + [Chars(tail)], " ");
    Unit(ParsAll(sets));
    Unit(ParsAll(sets) + ParsAll(where));
  }

  /** An UPDATE binds the assigned values first, then those of its condition, each as it is. */
  lemma UpdateHoldsLeaves(table: string, pk: string, sets: seq<Assignment>, where: Node)
    requires CleanText(table) && CleanText(pk) && GoodAssignments(sets) && GoodNode(where) && WellBehaved(where)
    requires sets != [] && UpdateClause(table, pk, sets, where).Ok?
    ensures SetClauses(sets).Ok?
    ensures HoldsLeaves(UpdateClause(table, pk, sets, where).value, SetsLeaves(sets) + WhereLeaves(where))
  {
    var c := UpdateClause(table, pk, sets, where).value;
    UpdateMeaning(table, pk, sets, where);
    SetsBindings(sets);
    var condition := if CompileNode(where).outcome.Ok? then [Chars("WHERE ") + NodePieces(where, true)] else [];
    if CompileNode(where).outcome.Ok? {
      NodeBindings(where, true);
      ParsPrefixed("WHERE ", NodePieces(where, true));
      ParsOne(Chars("WHERE ") + NodePieces(where, true));
    }
    UpdatePars("UPDATE " + table + " SET", SetsPieces(sets), condition, "RETURNING " + pk);
    LeafBindingsConcat(SetsLeaves(sets), WhereLeaves(where));
    MeaningHoldsLeaves(c, Meaning(c), SetsLeaves(sets) + WhereLeaves(where));
  }

  // ---- Terminal aggregates ----

  function AnnotationLeaves(annotations: seq<Node>): seq<Leaf>
    requires GoodAnnotations(annotations) && AnnotationClauses(annotations).Ok?
  {
    if annotations == [] then []
    else
      CapturedMeaning(annotations[0]);
      NodeLeaves(annotations[0], true) + AnnotationLeaves(annotations[1..])
  }

  lemma {:induction false} AnnotationBindings(annotations: seq<Node>)
    requires GoodAnnotations(annotations) && AnnotationClauses(annotations).Ok?
    ensures ParsAll(AnnotationPieces(annotations)) == LeafBindings(AnnotationLeaves(annotations))
  {
    if annotations != [] {
      CapturedMeaning(annotations[0]);
      NodeBindings(annotations[0], true);
      AnnotationBindings(annotations[1..]);
      ConsBindings(NodePieces(annotations[0], true), AnnotationPieces(annotations[1..]),
                   NodeLeaves(annotations[0], true), AnnotationLeaves(annotations[1..]));
    }
  }

  lemma AggregateHoldsLeaves(annotations: seq<Node>, inner: Query)
    requires GoodAnnotations(annotations) && GoodQuery(inner)
    requires AnnotationClauses(annotations).Ok? && CompileQuery(inner, true).Ok?
    ensures AggregateClause(annotations, inner).Ok?
    ensures HoldsLeaves(AggregateClause(annotations, inner).value,
                        AnnotationLeaves(annotations) + QueryLeaves(inner, true))
  {
    AggregateMeaning(annotations, inner);
    AnnotationBindings(annotations);
    QueryBindings(inner, true);
    WrappedPars(AnnotationPieces(annotations), QueryPieces(inner, true));
    LeafBindingsConcat(AnnotationLeaves(annotations), QueryLeaves(inner, true));
    var c := AggregateClause(annotations, inner).value;
    MeaningHoldsLeaves(c, Meaning(c), AnnotationLeaves(annotations) + QueryLeaves(inner, true));
  }
}

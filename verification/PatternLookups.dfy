/**
 * The node of a pattern lookup with an expression on its right side
 * (`_pattern_lookup_as_sql_ydb`): it shows that side twice, and compiles it twice.
 */
module PatternLookups {
  import opened Parameters
  import opened Fragments
  import opened QueryTree
  import opened CaptureAlignment
  import opened ClauseMeaning
  import opened TreeMeaning
  import opened StatementMeaning
  import opened WriteStatements
  import opened Lists

  /** `(lhs LIKE ... rhs ... AND (rhs) IS NOT NULL)`; `before` and `after` are what the operator puts around `rhs`. */
  function GuardedItems(before: string, after: string): seq<Item> {
    [Text("("), Ref(0), Text(before), Ref(1), Text(after), Ref(2), Text(") IS NOT NULL)")]
  }

  function GuardedNode(ty: FieldType, lhs: Node, rhs: Node, before: string, after: string): Node {
    Expr(ty, [Child(lhs, false, false), Child(rhs, false, false), Child(rhs, false, false)],
         Template(GuardedItems(before, after)))
  }

  /** Both sides, with what the buffer needs of them. */
  predicate Operands(lhs: Node, rhs: Node) {
    && GoodNode(lhs) && WellBehaved(lhs) && CompileNode(lhs).outcome.Ok?
    && GoodNode(rhs) && WellBehaved(rhs) && CompileNode(rhs).outcome.Ok?
  }

  lemma GuardedChildren(ty: FieldType, lhs: Node, rhs: Node, before: string, after: string)
    ensures var n := GuardedNode(ty, lhs, rhs, before, after);
            forall i :: 0 <= i < |n.children| ==> ChildAt(n, i) == if i == 0 then lhs else rhs
  {
  }

  lemma GuardedInOrder(before: string, after: string)
    ensures InOrder(GuardedItems(before, after), 0, 3)
  {
    var items := GuardedItems(before, after);
    assert items[1..][0] == Ref(0) && items[1..][1..] == items[2..] && items[2..][1..] == items[3..];
    assert items[3..][0] == Ref(1) && items[3..][1..] == items[4..] && items[4..][1..] == items[5..];
    assert items[5..][0] == Ref(2) && items[5..][1..] == items[6..] && items[6..][1..] == [];
    assert InOrder(items[6..], 3, 3);
    assert InOrder(items[4..], 2, 3);
    assert InOrder(items[2..], 1, 3);
  }

  lemma GuardedCompiles(ty: FieldType, lhs: Node, rhs: Node, before: string, after: string)
    requires CompileNode(lhs).outcome.Ok? && CompileNode(rhs).outcome.Ok?
    ensures CompileNode(GuardedNode(ty, lhs, rhs, before, after)).outcome.Ok?
  {
    var cs := GuardedNode(ty, lhs, rhs, before, after).children;
    assert cs[1..][0].node == rhs && cs[1..][1..][0].node == rhs && cs[1..][1..][1..] == [];
    assert !RunChildren(cs[1..][1..]).stopped;
    assert !RunChildren(cs[1..]).stopped;
    assert !RunChildren(cs).stopped;
  }

  lemma GuardedIsGood(ty: FieldType, lhs: Node, rhs: Node, before: string, after: string)
    requires GoodNode(lhs) && GoodNode(rhs) && CleanText(before) && CleanText(after)
    ensures GoodNode(GuardedNode(ty, lhs, rhs, before, after))
  {
    var n := GuardedNode(ty, lhs, rhs, before, after);
    GuardedChildren(ty, lhs, rhs, before, after);
    PlainIsClean("(");
    PlainIsClean(") IS NOT NULL)");
    CleanItems("(", before, after, ") IS NOT NULL)");
    GoodExpr(n);
  }

  lemma GoodExpr(n: Node)
    requires n.Expr? && n.body.Template? && forall i :: 0 <= i < |n.children| ==> GoodNode(ChildAt(n, i))
    requires var items := n.body.items; forall i :: 0 <= i < |items| && items[i].Text? ==> CleanText(items[i].s)
    ensures GoodNode(n)
  {
  }

  lemma CleanItems(a: string, b: string, c: string, d: string)
    requires CleanText(a) && CleanText(b) && CleanText(c) && CleanText(d)
    ensures var items := [Text(a), Ref(0), Text(b), Ref(1), Text(c), Ref(2), Text(d)];
            forall i :: 0 <= i < |items| && items[i].Text? ==> CleanText(items[i].s)
  {
  }

  lemma GuardedIsWellBehaved(ty: FieldType, lhs: Node, rhs: Node, before: string, after: string)
    requires Operands(lhs, rhs) && CleanText(before) && CleanText(after)
    ensures var n := GuardedNode(ty, lhs, rhs, before, after);
            GoodNode(n) && WellBehaved(n) && CompileNode(n).outcome.Ok?
  {
    GuardedChildren(ty, lhs, rhs, before, after);
    GuardedInOrder(before, after);
    GuardedCompiles(ty, lhs, rhs, before, after);
    InOrderIsWellBehaved(GuardedNode(ty, lhs, rhs, before, after));
    GuardedIsGood(ty, lhs, rhs, before, after);
  }

  lemma GuardedPieces(ty: FieldType, lhs: Node, rhs: Node, before: string, after: string)
    requires Operands(lhs, rhs)
    requires var n := GuardedNode(ty, lhs, rhs, before, after); GoodNode(n) && CompileNode(n).outcome.Ok?
    ensures NodePieces(GuardedNode(ty, lhs, rhs, before, after), true)
         == Chars("(") + (NodePieces(lhs, true) + (Chars(before) + (NodePieces(rhs, true) + (Chars(after)
            + (NodePieces(rhs, true) + Chars(") IS NOT NULL)"))))))
  {
    var n := GuardedNode(ty, lhs, rhs, before, after);
    var items := GuardedItems(before, after);
    GuardedChildren(ty, lhs, rhs, before, after);
    LastPieces(items[5..], n, 2, ") IS NOT NULL)");
    PairPieces(items[3..], n, 1, after);
    PairPieces(items[1..], n, 0, before);
    ConsPieces(items, n);
    assert items[1..][2..] == items[3..] && items[3..][2..] == items[5..];
    assert NodePieces(n, true) == ItemsPieces(items, n, true);
  }

  /** A child, and the text after it. */
  lemma PairPieces(items: seq<Item>, n: Node, i: nat, text: string)
    requires n.Expr? && GoodNode(n) && i < |n.children| && CompileNode(ChildAt(n, i)).outcome.Ok?
    requires |items| >= 2 && items[0] == Ref(i) && items[1] == Text(text)
    ensures ItemsPieces(items, n, true)
         == NodePieces(ChildAt(n, i), true) + (Chars(text) + ItemsPieces(items[2..], n, true))
  {
    ConsPieces(items, n);
    ConsPieces(items[1..], n);
    assert items[1..][1..] == items[2..];
  }

  lemma LastPieces(items: seq<Item>, n: Node, i: nat, text: string)
    requires n.Expr? && GoodNode(n) && i < |n.children| && CompileNode(ChildAt(n, i)).outcome.Ok?
    requires items == [Ref(i), Text(text)]
    ensures ItemsPieces(items, n, true) == NodePieces(ChildAt(n, i), true) + Chars(text)
  {
    PairPieces(items, n, i, text);
    ConsPieces(items[1..], n);
    Unit(Chars(text));
  }

  /**
   * Compiling the right side once for the pattern and once for the guard keeps
   * the buffer right: the node is well behaved, and every value is bound where
   * it is shown, by the type of the side that it comes from.
   */
  lemma GuardedLookupMeaning(ty: FieldType, lhs: Node, rhs: Node, before: string, after: string)
    requires Operands(lhs, rhs) && CleanText(before) && CleanText(after)
    ensures var n := GuardedNode(ty, lhs, rhs, before, after);
            && GoodNode(n) && WellBehaved(n) && CompileNode(n).outcome.Ok? && Captured(CompileNode(n)).Ok?
            && Sound(Captured(CompileNode(n)).value)
            && Meaning(Captured(CompileNode(n)).value)
               == Chars("(") + (NodePieces(lhs, true) + (Chars(before) + (NodePieces(rhs, true) + (Chars(after)
                  + (NodePieces(rhs, true) + Chars(") IS NOT NULL)"))))))
  {
    var n := GuardedNode(ty, lhs, rhs, before, after);
    GuardedIsWellBehaved(ty, lhs, rhs, before, after);
    GuardedPieces(ty, lhs, rhs, before, after);
    CapturedMeaning(n);
  }

  // ---- Compiling the right side once ----

  /** The same text, but from one compilation of the right side. */
  function SharedNode(ty: FieldType, lhs: Node, rhs: Node, before: string, after: string): Node {
    Expr(ty, [Child(lhs, false, false), Child(rhs, false, false)],
         Template([Text("("), Ref(0), Text(before), Ref(1), Text(after), Ref(1), Text(") IS NOT NULL)")]))
  }

  lemma SharedOwners(n: Node, items: seq<Item>, lhs: Node, rhs: Node, before: string, after: string)
    requires n.Expr? && |n.children| == 2 && ChildAt(n, 0) == lhs && ChildAt(n, 1) == rhs
    requires items == [Text("("), Ref(0), Text(before), Ref(1), Text(after), Ref(1), Text(") IS NOT NULL)")]
    ensures AllOwners(items, n) == Owners(lhs) + (Owners(rhs) + Owners(rhs))
  {
    assert items[5..] == [Ref(1), Text(") IS NOT NULL)")];
    OwnersPair(n, items[5..], 1, ") IS NOT NULL)");
    OwnersPair(n, items[3..], 1, after);
    OwnersPair(n, items[1..], 0, before);
    assert items[1..][2..] == items[3..] && items[3..][2..] == items[5..] && items[5..][2..] == [];
    Unit(Owners(rhs));
    assert AllOwners(items, n) == AllOwners(items[1..], n);
  }

  lemma OwnersPair(n: Node, items: seq<Item>, i: nat, text: string)
    requires n.Expr? && i < |n.children| && |items| >= 2 && items[0] == Ref(i) && items[1] == Text(text)
    ensures AllOwners(items, n) == Owners(ChildAt(n, i)) + AllOwners(items[2..], n)
  {
    var rest := items[2..];
    assert items == [Ref(i)] + ([Text(text)] + rest);
    OwnersCons(Text(text), rest, n);
    OwnersCons(Ref(i), [Text(text)] + rest, n);
    assert ItemOwners(Text(text), n) == [];
    Unit(AllOwners(rest, n));
  }

  lemma SharedCompiles(ty: FieldType, lhs: Node, rhs: Node, before: string, after: string)
    requires CompileNode(lhs).outcome.Ok? && CompileNode(rhs).outcome.Ok?
    ensures var n := SharedNode(ty, lhs, rhs, before, after);
            && ChildAt(n, 0) == lhs && ChildAt(n, 1) == rhs && CompileNode(n).outcome.Ok?
            && CapturedFrom(n, 0) == CompileNode(lhs).captured + CompileNode(rhs).captured
  {
    var n := SharedNode(ty, lhs, rhs, before, after);
    var cs := n.children;
    assert cs[1..][0].node == rhs && cs[1..][1..] == [];
    assert !RunChildren(cs[1..]).stopped;
    assert CapturedFrom(n, 2) == [] && CapturedFrom(n, 1) == CompileNode(rhs).captured + [];
  }

  /**
   * Showing the right side twice after compiling it once would keep the buffer
   * right only if every value of it had the type of the lookup itself.
   */
  lemma SharedIsAlignedIff(ty: FieldType, lhs: Node, rhs: Node, before: string, after: string)
    requires CompileNode(lhs).outcome.Ok? && CompileNode(rhs).outcome.Ok? && Aligned(lhs) && Aligned(rhs)
    ensures Aligned(SharedNode(ty, lhs, rhs, before, after)) <==> Owners(rhs) == Repeat(ty, |Owners(rhs)|)
  {
    var n := SharedNode(ty, lhs, rhs, before, after);
    SharedCompiles(ty, lhs, rhs, before, after);
    SharedOwners(n, n.body.items, lhs, rhs, before, after);
    assert Owners(n) == AllOwners(n.body.items, n);
    OwnersLength(n);
    RecordedTypes(n);
    assert CompileNode(n).captured == (Owners(lhs) + Owners(rhs)) + Repeat(ty, |Owners(rhs)|);
    SameTail(Owners(lhs), Owners(rhs), Repeat(ty, |Owners(rhs)|));
  }

  lemma SameTail<T>(a: seq<T>, b: seq<T>, c: seq<T>)
    ensures (a + b) + c == a + (b + b) <==> c == b
  {
    Assoc(a, b, b);
    if (a + b) + c == (a + b) + b {
      StripPrefix(a + b, c, b);
    }
  }
}
